/** Which map of a live series is being played: the first that no explicit result decides. */
module MapState {
  import opened Wrappers
  import opened RaybetFinal
  import opened RaybetParse
  import opened RaybetSymmetry

  /** A live series is read without expecting any match or teams. */
  const ANYBODY := Expectation(None, None)

  /** What a response says of a map: `parse(m, f)` when `f` is the result of map `m`. */
  type Reading = (int, MapFinal) -> bool

  ghost function Parsed(p: Payload): Reading {
    (m: int, f: MapFinal) => IsFinal(p, m, ANYBODY, f)
  }

  ghost predicate Determined(parse: Reading) {
    forall m, f, g :: parse(m, f) && parse(m, g) ==> f == g
  }

  /** The results of the first maps. */
  ghost predicate ResultsOf(parse: Reading, finals: seq<MapFinal>) {
    forall i | 0 <= i < |finals| :: parse(i + 1, finals[i])
  }

  /** A result that makes the inference fail: a contradiction, or anything unfinished but an unsettled market. */
  predicate Unusable(f: MapFinal) {
    f.status == Conflict || (f.reason != WinnerMarketNotSettled && f.status != Confirmed)
  }

  function MapWinner(f: MapFinal): Option<Side> {
    if f.winner.Some? then f.winner else f.scoreWinner
  }

  function Required(bestOf: int): int {
    bestOf / 2 + 1
  }

  function Wins(finals: seq<MapFinal>, s: Side): nat {
    if finals == [] then 0
    else Wins(finals[..|finals| - 1], s) + if MapWinner(finals[|finals| - 1]) == Some(s) then 1 else 0
  }

  predicate Decided(finals: seq<MapFinal>) {
    forall i | 0 <= i < |finals| :: !Unusable(finals[i]) && MapWinner(finals[i]).Some?
  }

  predicate Won(finals: seq<MapFinal>, bestOf: int) {
    Wins(finals, TeamOne) >= Required(bestOf) || Wins(finals, TeamTwo) >= Required(bestOf)
  }

  /** These maps are decided and leave the series open. */
  predicate Open(finals: seq<MapFinal>, bestOf: int) {
    Decided(finals) && !Won(finals, bestOf)
  }

  /** The current map, no map, or a failure with this reason. */
  type Inferred = Result<Option<nat>, Reason>

  /**
   * What the result of the map after `before`, all of them decided and the series open, says: nothing
   * yet, or the answer.
   */
  function Answer(before: seq<MapFinal>, f: MapFinal, bestOf: int): Option<Inferred> {
    if Unusable(f) then Some(Err(f.reason))
    else if MapWinner(f).None? then Some(Ok(Some(|before| + 1)))
    else if Won(before + [f], bestOf) then Some(Ok(None))
    else None
  }

  /**
   * The answer was given by the result after `before`, the only ones looked at; or every map is
   * decided and the series still open.
   */
  ghost predicate AnsweredAt(parse: Reading, bestOf: int, before: seq<MapFinal>, r: Inferred) {
    && ResultsOf(parse, before) && Open(before, bestOf)
    && if |before| < bestOf
       then exists f :: parse(|before| + 1, f) && Answer(before, f, bestOf) == Some(r)
       else |before| == bestOf && r == Ok(None)
  }

  ghost predicate IsCurrentMap(parse: Reading, bestOf: int, r: Inferred) {
    exists before :: AnsweredAt(parse, bestOf, before, r)
  }

  method InferCurrentMapNumber(p: Payload, bestOf: Option<int>) returns (r: Inferred)
    ensures bestOf.None? || !(1 <= bestOf.value <= 10) ==> r == Ok(None)
    ensures bestOf.Some? && 1 <= bestOf.value <= 10 ==> IsCurrentMap(Parsed(p), bestOf.value, r)
  {
    if bestOf.None? || !(1 <= bestOf.value <= 10) { return Ok(None); }
    r := CountWins(p, bestOf.value, Parsed(p));
  }

  ghost predicate Describes(parse: Reading, p: Payload) {
    forall m, f {:trigger IsFinal(p, m, ANYBODY, f)} :: IsFinal(p, m, ANYBODY, f) ==> parse(m, f)
  }

  method CountWins(p: Payload, bestOf: int, ghost parse: Reading) returns (r: Inferred)
    requires Describes(parse, p) && 1 <= bestOf
    ensures IsCurrentMap(parse, bestOf, r)
  {
    var wins := map[TeamOne := 0, TeamTwo := 0];
    var required := bestOf / 2 + 1;
    ghost var before := [];
    for mapNumber := 1 to bestOf + 1
      invariant |before| == mapNumber - 1
      invariant Tallied(before, wins)
      invariant ResultsOf(parse, before) && Open(before, bestOf)
    {
      var evidence := ParseLive(p, mapNumber, parse);
      ghost var answer := Answer(before, evidence, bestOf);
      assert answer.Some? ==> AnsweredAt(parse, bestOf, before, answer.value);
      if evidence.status == Conflict { return Err(evidence.reason); }
      if evidence.reason != WinnerMarketNotSettled && evidence.status != Confirmed { return Err(evidence.reason); }
      var winner := if evidence.winner.Some? then evidence.winner else evidence.scoreWinner;
      if winner.None? { return Ok(Some(mapNumber)); }
      OneMoreWin(before, evidence, winner.value, wins, bestOf);
      wins := wins[winner.value := wins[winner.value] + 1];
      if wins[winner.value] >= required { return Ok(None); }
      before := before + [evidence];
    }
    assert AnsweredAt(parse, bestOf, before, Ok(None));
    r := Ok(None);
  }

  method ParseLive(p: Payload, mapNumber: int, ghost parse: Reading) returns (f: MapFinal)
    requires Describes(parse, p) && mapNumber > 0
    ensures parse(mapNumber, f)
  {
    var parsed := ParseRaybetMapFinal(p, mapNumber, ANYBODY);
    f := parsed.value;
  }

  predicate Tallied(before: seq<MapFinal>, wins: map<Side, int>) {
    && TeamOne in wins && TeamTwo in wins
    && wins[TeamOne] == Wins(before, TeamOne) && wins[TeamTwo] == Wins(before, TeamTwo)
  }

  lemma WinsOneMore(before: seq<MapFinal>, f: MapFinal, s: Side)
    ensures Wins(before + [f], s) == Wins(before, s) + if MapWinner(f) == Some(s) then 1 else 0
  {
    assert before + [f] != [] && (before + [f])[..|before + [f]| - 1] == before;
  }

  /** Counting a win is exact: the series is won when, and only when, the winner of this map now has its majority. */
  lemma OneMoreWin(before: seq<MapFinal>, f: MapFinal, s: Side, wins: map<Side, int>, bestOf: int)
    requires Open(before, bestOf) && MapWinner(f) == Some(s) && !Unusable(f) && Tallied(before, wins)
    ensures s in wins && Tallied(before + [f], wins[s := wins[s] + 1])
    ensures Decided(before + [f])
    ensures Won(before + [f], bestOf) <==> wins[s] + 1 >= Required(bestOf)
  {
    WinsOneMore(before, f, TeamOne);
    WinsOneMore(before, f, TeamTwo);
    match s
    case TeamOne => assert Some(s) != Some(TeamTwo);
    case TeamTwo => assert Some(s) != Some(TeamOne);
  }

  /* ---------- exactness ---------- */

  lemma {:induction false} DecidedMapsAreWon(finals: seq<MapFinal>)
    requires Decided(finals)
    ensures Wins(finals, TeamOne) + Wins(finals, TeamTwo) == |finals|
  {
    if finals != [] {
      DecidedMapsAreWon(finals[..|finals| - 1]);
      match MapWinner(finals[|finals| - 1]).value
      case TeamOne =>
      case TeamTwo =>
    }
  }

  lemma {:induction false} WinsGrow(finals: seq<MapFinal>, i: nat, s: Side)
    requires i <= |finals|
    ensures Wins(finals[..i], s) <= Wins(finals, s)
  {
    if i < |finals| {
      WinsGrow(finals[..|finals| - 1], i, s);
      assert finals[..|finals| - 1][..i] == finals[..i];
    } else {
      assert finals[..i] == finals;
    }
  }

  /** The maps can run out only in an even series split equally: in an odd one somebody has a majority. */
  lemma RunningOutIsADraw(finals: seq<MapFinal>, bestOf: int)
    requires 1 <= bestOf == |finals|
    ensures Open(finals, bestOf) <==>
              Decided(finals) && bestOf % 2 == 0
              && Wins(finals, TeamOne) == bestOf / 2 && Wins(finals, TeamTwo) == bestOf / 2
  {
    if Decided(finals) { DecidedMapsAreWon(finals); }
  }

  /** Map `m` is named exactly when it is the first undecided one and neither side had a majority before it. */
  lemma NamedIffFirstUndecided(parse: Reading, bestOf: int, m: nat, finals: seq<MapFinal>)
    requires Determined(parse) && |finals| == m && ResultsOf(parse, finals)
    ensures IsCurrentMap(parse, bestOf, Ok(Some(m))) <==>
              1 <= m <= bestOf && !Unusable(finals[m - 1]) && MapWinner(finals[m - 1]).None?
                  && Open(finals[..m - 1], bestOf)
  {
    if IsCurrentMap(parse, bestOf, Ok(Some(m))) {
      var before :| AnsweredAt(parse, bestOf, before, Ok(Some(m)));
      SameResults(parse, before, finals[..m - 1]);
    } else if 1 <= m <= bestOf && Open(finals[..m - 1], bestOf) {
      var before, f := finals[..m - 1], finals[m - 1];
      assert parse(|before| + 1, f);
      assert Answer(before, f, bestOf) == Some(Ok(Some(m))) ==> AnsweredAt(parse, bestOf, before, Ok(Some(m)));
    }
  }

  /** A side has its majority by the last of these maps, or they are all of an even series and drawn. */
  ghost predicate Over(finals: seq<MapFinal>, bestOf: int) {
    && Decided(finals) && |finals| <= bestOf
    && (Won(finals, bestOf)
        || (|finals| == bestOf && bestOf % 2 == 0 && Wins(finals, TeamOne) == Wins(finals, TeamTwo)))
  }

  /** No map is named exactly when the series is over. */
  lemma NoneNamedIffOver(parse: Reading, bestOf: int)
    requires 1 <= bestOf
    ensures IsCurrentMap(parse, bestOf, Ok(None)) <==> exists finals :: ResultsOf(parse, finals) && Over(finals, bestOf)
  {
    if IsCurrentMap(parse, bestOf, Ok(None)) {
      var before :| AnsweredAt(parse, bestOf, before, Ok(None));
      NoneAnsweredIsOver(parse, bestOf, before);
    }
    if finals :| ResultsOf(parse, finals) && Over(finals, bestOf) { OverThenNone(parse, bestOf, finals); }
  }

  lemma NoneAnsweredIsOver(parse: Reading, bestOf: int, before: seq<MapFinal>)
    requires 1 <= bestOf && AnsweredAt(parse, bestOf, before, Ok(None))
    ensures exists finals :: ResultsOf(parse, finals) && Over(finals, bestOf)
  {
    if |before| < bestOf {
      var f :| parse(|before| + 1, f) && Answer(before, f, bestOf) == Some(Ok(None));
      OneMoreResult(parse, before, f);
      NoneByMajority(before, f, bestOf);
    } else {
      DrawnIsOver(before, bestOf);
    }
  }

  lemma OneMoreResult(parse: Reading, before: seq<MapFinal>, f: MapFinal)
    requires ResultsOf(parse, before) && parse(|before| + 1, f)
    ensures ResultsOf(parse, before + [f])
  {
  }

  lemma NoneByMajority(before: seq<MapFinal>, f: MapFinal, bestOf: int)
    requires Decided(before) && |before| < bestOf && Answer(before, f, bestOf) == Some(Ok(None))
    ensures Over(before + [f], bestOf)
  {
    DecidedOneMore(before, f);
  }

  lemma DecidedOneMore(before: seq<MapFinal>, f: MapFinal)
    requires Decided(before) && !Unusable(f) && MapWinner(f).Some?
    ensures Decided(before + [f])
  {
  }

  lemma DrawnIsOver(finals: seq<MapFinal>, bestOf: int)
    requires 1 <= bestOf == |finals| && Open(finals, bestOf)
    ensures Over(finals, bestOf)
  {
    RunningOutIsADraw(finals, bestOf);
  }

  lemma {:induction false} OverThenNone(parse: Reading, bestOf: int, finals: seq<MapFinal>)
    requires 1 <= bestOf && ResultsOf(parse, finals) && Over(finals, bestOf)
    ensures IsCurrentMap(parse, bestOf, Ok(None))
  {
    DecidedMapsAreWon(finals);
    if !Won(finals, bestOf) {
      assert AnsweredAt(parse, bestOf, finals, Ok(None));
    } else {
      var init, f := finals[..|finals| - 1], finals[|finals| - 1];
      if Won(init, bestOf) {
        OverThenNone(parse, bestOf, init);
      } else {
        assert init + [f] == finals;
        assert parse(|init| + 1, f) && Answer(init, f, bestOf) == Some(Ok(None));
        assert AnsweredAt(parse, bestOf, init, Ok(None));
      }
    }
  }

  lemma SameResults(parse: Reading, a: seq<MapFinal>, b: seq<MapFinal>)
    requires Determined(parse) && ResultsOf(parse, a) && ResultsOf(parse, b) && |a| == |b|
    ensures a == b
  {
    forall i | 0 <= i < |a| ensures a[i] == b[i] {
      assert parse(i + 1, a[i]) && parse(i + 1, b[i]);
    }
  }

  /** A series passes each map before the one that gives the answer without an answer. */
  lemma PassedWithoutAnswer(before: seq<MapFinal>, i: nat, bestOf: int)
    requires i < |before| && Open(before, bestOf)
    ensures Answer(before[..i], before[i], bestOf) == None
  {
    assert before[..i] + [before[i]] == before[..i + 1];
    WinsGrow(before, i + 1, TeamOne);
    WinsGrow(before, i + 1, TeamTwo);
  }

  /** A response has one answer. */
  lemma CurrentMapIsUnique(parse: Reading, bestOf: int, r: Inferred, r': Inferred)
    requires Determined(parse) && IsCurrentMap(parse, bestOf, r) && IsCurrentMap(parse, bestOf, r')
    ensures r == r'
  {
    var a :| AnsweredAt(parse, bestOf, a, r);
    var b :| AnsweredAt(parse, bestOf, b, r');
    if |a| <= |b| {
      FirstAnswerStands(parse, bestOf, a, r, b, r');
    } else {
      FirstAnswerStands(parse, bestOf, b, r', a, r);
    }
  }

  lemma FirstAnswerStands(parse: Reading, bestOf: int, a: seq<MapFinal>, r: Inferred, b: seq<MapFinal>, r': Inferred)
    requires Determined(parse) && AnsweredAt(parse, bestOf, a, r) && AnsweredAt(parse, bestOf, b, r') && |a| <= |b|
    ensures r == r'
  {
    SameResults(parse, a, b[..|a|]);
    if |a| < bestOf {
      var f :| parse(|a| + 1, f) && Answer(a, f, bestOf) == Some(r);
      if |a| < |b| {
        assert parse(|a| + 1, b[|a|]);
        PassedWithoutAnswer(b, |a|, bestOf);
      } else {
        assert b[..|a|] == b;
        var g :| parse(|b| + 1, g) && Answer(b, g, bestOf) == Some(r');
      }
    }
  }

  /* ---------- symmetry ---------- */

  function SwapResults(finals: seq<MapFinal>): (r: seq<MapFinal>)
    ensures |r| == |finals|
  {
    seq(|finals|, i requires 0 <= i < |finals| => SwapFinal(finals[i]))
  }

  lemma {:induction false} SwapWins(finals: seq<MapFinal>)
    ensures Wins(SwapResults(finals), TeamOne) == Wins(finals, TeamTwo)
    ensures Wins(SwapResults(finals), TeamTwo) == Wins(finals, TeamOne)
  {
    if finals != [] {
      var init := finals[..|finals| - 1];
      SwapWins(init);
      assert SwapResults(finals)[..|finals| - 1] == SwapResults(init);
    }
  }

  lemma SwappedOpen(finals: seq<MapFinal>, bestOf: int)
    ensures Decided(finals) ==> Decided(SwapResults(finals))
    ensures Won(SwapResults(finals), bestOf) <==> Won(finals, bestOf)
  {
    SwapWins(finals);
  }

  lemma SwappedAnswer(before: seq<MapFinal>, f: MapFinal, bestOf: int)
    ensures Answer(SwapResults(before), SwapFinal(f), bestOf) == Answer(before, f, bestOf)
  {
    SwappedOpen(before + [f], bestOf);
    assert SwapResults(before + [f]) == SwapResults(before) + [SwapFinal(f)];
  }

  lemma SwappedResults(parse: Reading, swapped: Reading, finals: seq<MapFinal>)
    requires forall m, f :: parse(m, f) ==> swapped(m, SwapFinal(f))
    requires ResultsOf(parse, finals)
    ensures ResultsOf(swapped, SwapResults(finals))
  {
    forall i | 0 <= i < |finals| ensures swapped(i + 1, SwapResults(finals)[i]) {
      assert parse(i + 1, finals[i]);
    }
  }

  lemma SwappedReadingNamesTheSameMap(parse: Reading, swapped: Reading, bestOf: int, r: Inferred)
    requires forall m, f :: parse(m, f) ==> swapped(m, SwapFinal(f))
    requires IsCurrentMap(parse, bestOf, r)
    ensures IsCurrentMap(swapped, bestOf, r)
  {
    var before :| AnsweredAt(parse, bestOf, before, r);
    SwappedOpen(before, bestOf);
    SwappedResults(parse, swapped, before);
    if |before| < bestOf {
      var f :| parse(|before| + 1, f) && Answer(before, f, bestOf) == Some(r);
      SwappedAnswer(before, f, bestOf);
      assert swapped(|before| + 1, SwapFinal(f));
    }
    assert AnsweredAt(swapped, bestOf, SwapResults(before), r);
  }

  /**
   * Responses have one current map, and naming their teams the other way round does not move it.
   */
  lemma CurrentMapIsSideSymmetric(p: Payload, bestOf: int, r: Inferred, r': Inferred)
    requires IsCurrentMap(Parsed(p), bestOf, r) && IsCurrentMap(Parsed(SwapTeams(p)), bestOf, r')
    ensures r == r'
  {
    forall m, f | Parsed(p)(m, f) ensures Parsed(SwapTeams(p))(m, SwapFinal(f)) {
      ParsingIsSymmetric(p, m, ANYBODY, f);
    }
    ResponsesAreDetermined(SwapTeams(p));
    SwappedReadingNamesTheSameMap(Parsed(p), Parsed(SwapTeams(p)), bestOf, r);
    CurrentMapIsUnique(Parsed(SwapTeams(p)), bestOf, r, r');
  }

  lemma ResponsesAreDetermined(p: Payload)
    ensures Determined(Parsed(p))
  {
    forall m, f, g | Parsed(p)(m, f) && Parsed(p)(m, g) ensures f == g {
      FinalIsDetermined(p, m, ANYBODY, f, g);
    }
  }
}
