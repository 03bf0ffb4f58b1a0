/** Which team a map of a live series counts for, and what a named map says about the response. */
module SeriesMeaning {
  import opened Wrappers
  import opened RaybetFinal
  import opened RaybetParse
  import opened RaybetMeaning
  import opened MapState

  /** The markets or the scores name the first team, or the second. */
  predicate NamesOne(x: Facts) {
    x.paidOne || x.scoredOne
  }

  predicate NamesTwo(x: Facts) {
    x.paidTwo || x.scoredTwo
  }

  /** The scores and the markets can be read and do not name both teams. */
  predicate Agreeing(x: Facts) {
    x.valid && (x.scoredOne || x.scoredTwo || x.notScored) && !(NamesOne(x) && NamesTwo(x))
  }

  lemma MapsFollow(x: Facts, f: MapFinal)
    requires Follows(x, f) && !(x.scoredOne && x.scoredTwo)
    ensures Unusable(f) <==> !Agreeing(x)
    ensures !Unusable(f) ==> (MapWinner(f) == Some(TeamOne) <==> NamesOne(x))
    ensures !Unusable(f) ==> (MapWinner(f) == Some(TeamTwo) <==> NamesTwo(x))
  {
    OneOfTwo(f.winner);
    OneOfTwo(f.scoreWinner);
  }

  lemma OneOfTwo(s: Option<Side>)
    ensures s == None || s == Some(TeamOne) || s == Some(TeamTwo)
  {
    if s.Some? { match s.value { case TeamOne => case TeamTwo => } }
  }

  /**
   * A map of an identified response makes the inference fail exactly when its scores or markets cannot
   * be read or name both teams. Otherwise it counts for the team that the markets or the scores name:
   * a score decides a map whose markets are not settled.
   */
  lemma MapsCountForTheNamed(p: Payload, m: int, f: MapFinal, a: Team, b: Team)
    requires IsFinal(p, m, ANYBODY, f) && Identifies(p, ANYBODY, a, b)
    ensures Unusable(f) <==> !Agreeing(FactsOf(p, m, ANYBODY, a, b))
    ensures !Unusable(f) ==> (MapWinner(f) == Some(TeamOne) <==> NamesOne(FactsOf(p, m, ANYBODY, a, b)))
    ensures !Unusable(f) ==> (MapWinner(f) == Some(TeamTwo) <==> NamesTwo(FactsOf(p, m, ANYBODY, a, b)))
  {
    ResultFollowsFromFacts(p, m, ANYBODY, f, a, b);
    MapsFollow(FactsOf(p, m, ANYBODY, a, b), f);
  }

  /** What a response says of each map. */
  type Sayings = nat -> Facts

  ghost function SayingsOf(p: Payload, a: Team, b: Team): Sayings
    requires a.teamId.Some? && b.teamId.Some?
  {
    (m: nat) => FactsOf(p, m, ANYBODY, a, b)
  }

  /** The result counts for the team that is named. */
  predicate CountsFor(x: Facts, f: MapFinal) {
    && (Unusable(f) <==> !Agreeing(x))
    && (!Unusable(f) ==> (MapWinner(f) == Some(TeamOne) <==> NamesOne(x)))
    && (!Unusable(f) ==> (MapWinner(f) == Some(TeamTwo) <==> NamesTwo(x)))
  }

  ghost predicate AllCount(says: Sayings, finals: seq<MapFinal>) {
    forall i | 0 <= i < |finals| :: CountsFor(says(i + 1), finals[i])
  }

  lemma AllResultsCount(parse: Reading, says: Sayings, finals: seq<MapFinal>)
    requires ResultsOf(parse, finals) && forall m: nat, f | parse(m, f) :: CountsFor(says(m), f)
    ensures AllCount(says, finals)
  {
    forall i | 0 <= i < |finals| ensures CountsFor(says(i + 1), finals[i]) {
      assert parse(i + 1, finals[i]);
    }
  }

  lemma ResultsCount(p: Payload, finals: seq<MapFinal>, a: Team, b: Team)
    requires Identifies(p, ANYBODY, a, b) && ResultsOf(Parsed(p), finals)
    ensures AllCount(SayingsOf(p, a, b), finals)
  {
    var parse, says := Parsed(p), SayingsOf(p, a, b);
    forall m: nat, f | parse(m, f) ensures CountsFor(says(m), f) { ResultCounts(p, m, f, a, b); }
    AllResultsCount(parse, says, finals);
  }

  lemma ResultCounts(p: Payload, m: nat, f: MapFinal, a: Team, b: Team)
    requires Identifies(p, ANYBODY, a, b) && Parsed(p)(m, f)
    ensures CountsFor(SayingsOf(p, a, b)(m), f)
  {
    MapsCountForTheNamed(p, m, f, a, b);
  }

  /** The map names exactly one team. */
  predicate NamesOneTeam(x: Facts) {
    Agreeing(x) && NamesOne(x) != NamesTwo(x)
  }

  /** The map is being played: it names nobody, and each map before it names exactly one team. */
  ghost predicate BeingPlayed(says: Sayings, m: nat) {
    && Agreeing(says(m)) && !NamesOne(says(m)) && !NamesTwo(says(m))
    && forall k: nat | 1 <= k < m :: NamesOneTeam(says(k))
  }

  /** The maps up to `n` that name a team. */
  ghost function MapsThat(says: Sayings, n: nat, names: Facts -> bool): set<nat> {
    set k: nat | 1 <= k <= n && names(says(k))
  }

  lemma DecidedIffEachNamesOne(says: Sayings, finals: seq<MapFinal>)
    requires AllCount(says, finals)
    ensures Decided(finals) <==> forall k: nat | 1 <= k <= |finals| :: NamesOneTeam(says(k))
  {
    forall i: nat | i < |finals|
      ensures !Unusable(finals[i]) && MapWinner(finals[i]).Some? <==> NamesOneTeam(says(i + 1))
    {
      assert CountsFor(says(i + 1), finals[i]);
      OneOfTwo(MapWinner(finals[i]));
    }
    if Decided(finals) {
      forall k: nat | 1 <= k <= |finals| ensures NamesOneTeam(says(k)) {
        assert !Unusable(finals[k - 1]) && MapWinner(finals[k - 1]).Some?;
        assert NamesOneTeam(says((k - 1) + 1));
      }
    }
  }

  /** The wins of a team are the maps that name it. */
  lemma {:induction false} WinsAreMaps(says: Sayings, finals: seq<MapFinal>)
    requires AllCount(says, finals) && Decided(finals)
    ensures Wins(finals, TeamOne) == |MapsThat(says, |finals|, NamesOne)|
    ensures Wins(finals, TeamTwo) == |MapsThat(says, |finals|, NamesTwo)|
  {
    var n := |finals|;
    if n == 0 {
      assert MapsThat(says, 0, NamesOne) == {} && MapsThat(says, 0, NamesTwo) == {};
    } else {
      WinsAreMaps(says, finals[..n - 1]);
      assert CountsFor(says((n - 1) + 1), finals[n - 1]);
      OneMoreMap(says, n, NamesOne);
      OneMoreMap(says, n, NamesTwo);
    }
  }

  lemma OneMoreMap(says: Sayings, n: nat, names: Facts -> bool)
    requires n >= 1
    ensures |MapsThat(says, n, names)| == |MapsThat(says, n - 1, names)| + if names(says(n)) then 1 else 0
  {
    if names(says(n)) {
      assert MapsThat(says, n, names) == MapsThat(says, n - 1, names) + {n};
    } else {
      assert MapsThat(says, n, names) == MapsThat(says, n - 1, names);
    }
  }

  /** The map is being played in a series of this length, in which no team has a majority before it. */
  ghost predicate IsPlayed(says: Sayings, bestOf: int, m: nat) {
    && 1 <= m <= bestOf && BeingPlayed(says, m)
    && 2 * |MapsThat(says, m - 1, NamesOne)| <= bestOf && 2 * |MapsThat(says, m - 1, NamesTwo)| <= bestOf
  }

  /**
   * A map of an identified response is named exactly when it is being played and neither team was named
   * by more than half of the maps of the series before it.
   */
  lemma NamedIffBeingPlayed(p: Payload, bestOf: int, m: nat, finals: seq<MapFinal>, a: Team, b: Team)
    requires Identifies(p, ANYBODY, a, b) && ResultsOf(Parsed(p), finals) && |finals| == m >= 1
    ensures IsCurrentMap(Parsed(p), bestOf, Ok(Some(m))) <==> IsPlayed(SayingsOf(p, a, b), bestOf, m)
  {
    ResponsesAreDetermined(p);
    ResultsCount(p, finals, a, b);
    NamedIffPlayed(Parsed(p), SayingsOf(p, a, b), bestOf, finals);
  }

  lemma NamedIffPlayed(parse: Reading, says: Sayings, bestOf: int, finals: seq<MapFinal>)
    requires Determined(parse) && ResultsOf(parse, finals) && AllCount(says, finals) && finals != []
    ensures IsCurrentMap(parse, bestOf, Ok(Some(|finals|))) <==> IsPlayed(says, bestOf, |finals|)
  {
    NamedIffFirstUndecided(parse, bestOf, |finals|, finals);
    FirstUndecidedIsPlayed(says, finals, bestOf);
  }

  lemma FirstUndecidedIsPlayed(says: Sayings, finals: seq<MapFinal>, bestOf: int)
    requires AllCount(says, finals) && finals != []
    ensures var m := |finals|;
            m <= bestOf && !Unusable(finals[m - 1]) && MapWinner(finals[m - 1]).None? && Open(finals[..m - 1], bestOf)
            <==> IsPlayed(says, bestOf, m)
  {
    var m := |finals|;
    var before := finals[..m - 1];
    assert CountsFor(says((m - 1) + 1), finals[m - 1]);
    OneOfTwo(MapWinner(finals[m - 1]));
    DecidedIffEachNamesOne(says, before);
    if Decided(before) { WinsAreMaps(says, before); }
  }
}
