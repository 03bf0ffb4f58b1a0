/**
 * The final result of one map from an odds response: only explicit, settled winner markets and map
 * scores count, and every contradiction is reported. The relation `IsFinal` reads the response as
 * unordered evidence; the parser's loops are proved to compute it.
 */
module RaybetFinal {
  import opened Wrappers
  import opened Ordering
  import opened TextOrder

  const DOTA2_GAME_ID := 151

  datatype Side = TeamOne | TeamTwo

  function Other(s: Side): Side {
    if s == TeamOne then TeamTwo else TeamOne
  }

  /** A result flag: a strict zero or one, or any other present value. */
  datatype Flag = Zero | One | OtherValue

  /** A team entry: its position when that can be read, its id when it is an integer, its score per map. */
  datatype Team = Team(pos: Option<int>, teamId: Option<int>, scores: map<int, Flag>)

  /**
   * An odds row. `stage` is the map number its match stage names; `teamId` is the integer its team
   * text denotes, zero when it denotes none.
   */
  datatype OddsRow = OddsRow(
    winnerMarket: bool,
    stage: int,
    groupId: string,
    teamId: int,
    win: Flag,
    settled: bool,
    oddsId: string)

  /** Lists hold nothing at the places of members that are not objects. */
  datatype Payload = Payload(
    matchId: string,
    gameId: Option<int>,
    teams: Option<seq<Option<Team>>>,
    odds: seq<Option<OddsRow>>)

  datatype Status = Pending | Confirmed | Conflict

  datatype Reason =
    | MatchIdentityInvalid | GameIdentityInvalid | TeamIdentityMissing | TeamIdentityInvalid | TeamIdentityConflict
    | MapScoreInvalid | WinnerMarketInvalid | WinnerMarketNotSettled | WinnerMarketConflict | ScoreMarketConflict
    | FinalConfirmed

  datatype MapFinal = MapFinal(
    status: Status,
    reason: Reason,
    winner: Option<Side>,
    scoreWinner: Option<Side>,
    marketWinner: Option<Side>,
    outcomes: seq<(string, bool)>)

  function Stopped(status: Status, reason: Reason, scoreWinner: Option<Side>): MapFinal {
    MapFinal(status, reason, None, scoreWinner, None, [])
  }

  /* ---------- the markets, as a multiset of rows ---------- */

  /** The two teams by their ids. */
  datatype Teams = Teams(one: int, two: int)

  function SideOf(t: Teams, row: OddsRow): Option<Side> {
    if row.teamId == t.one then Some(TeamOne) else if row.teamId == t.two then Some(TeamTwo) else None
  }

  predicate InGroup(m: multiset<OddsRow>, g: string, row: OddsRow) {
    row in m && row.groupId == g
  }

  /** The group's rows of a side are more than one, counting equal rows. */
  ghost predicate Doubled(t: Teams, m: multiset<OddsRow>, g: string, s: Side) {
    exists row :: InGroup(m, g, row) && SideOf(t, row) == Some(s)
                  && (m[row] > 1 || exists r :: InGroup(m, g, r) && SideOf(t, r) == Some(s) && r != row)
  }

  ghost predicate Malformed(t: Teams, m: multiset<OddsRow>, g: string) {
    (exists row :: InGroup(m, g, row) && SideOf(t, row) == None)
    || Doubled(t, m, g, TeamOne) || Doubled(t, m, g, TeamTwo)
  }

  ghost predicate Represents(t: Teams, m: multiset<OddsRow>, g: string, s: Side, row: OddsRow) {
    InGroup(m, g, row) && SideOf(t, row) == Some(s)
  }

  predicate Strict(f: Flag) {
    f != OtherValue
  }

  /** A well-formed group in which both sides are present, settled and strictly flagged. */
  ghost predicate SettledGroup(t: Teams, m: multiset<OddsRow>, g: string, one: OddsRow, two: OddsRow) {
    && !Malformed(t, m, g)
    && Represents(t, m, g, TeamOne, one) && Represents(t, m, g, TeamTwo, two)
    && one.settled && two.settled && Strict(one.win) && Strict(two.win)
  }

  ghost predicate InvalidGroup(t: Teams, m: multiset<OddsRow>, g: string) {
    Malformed(t, m, g)
    || exists one, two ::
       SettledGroup(t, m, g, one, two) && (one.win == two.win || one.oddsId == "" || two.oddsId == "")
  }

  function RowOf(s: Side, one: OddsRow, two: OddsRow): OddsRow {
    if s == TeamOne then one else two
  }

  /** A group that names `s` as the winner. */
  ghost predicate GroupWinner(t: Teams, m: multiset<OddsRow>, g: string, s: Side) {
    exists one, two ::
        SettledGroup(t, m, g, one, two) && RowOf(s, one, two).win == One && RowOf(Other(s), one, two).win == Zero
  }

  ghost predicate MarketWinner(t: Teams, m: multiset<OddsRow>, s: Side) {
    exists g :: g != "" && GroupWinner(t, m, g, s)
  }

  /** A settled group of `m` says that the selection `id` won, or lost. */
  ghost predicate GroupSays(t: Teams, m: multiset<OddsRow>, g: string, id: string, won: bool) {
    exists one, two, s :: SettledGroup(t, m, g, one, two) && one.win != two.win
                          && RowOf(s, one, two).oddsId == id && (RowOf(s, one, two).win == One <==> won)
  }

  ghost predicate Says(t: Teams, m: multiset<OddsRow>, id: string, won: bool) {
    exists g :: g != "" && GroupSays(t, m, g, id, won)
  }

  ghost predicate MarketsInvalid(t: Teams, m: multiset<OddsRow>) {
    (exists g :: g != "" && InvalidGroup(t, m, g)) || (exists id :: Says(t, m, id, true) && Says(t, m, id, false))
  }

  /** `outcomes` lists every settled selection once, by id, with whether it won. */
  ghost predicate ListsOutcomes(t: Teams, m: multiset<OddsRow>, outcomes: seq<(string, bool)>) {
    && (forall i, j | 0 <= i < j < |outcomes| :: TextBefore(outcomes[i].0, outcomes[j].0))
    && (forall id, won :: (id, won) in outcomes <==> Says(t, m, id, won))
  }

  /** The result of the markets, given what the score says. */
  ghost predicate IsMarketFinal(t: Teams, m: multiset<OddsRow>, score: Option<Side>, r: MapFinal) {
    if MarketsInvalid(t, m) then r == Stopped(Conflict, WinnerMarketInvalid, score)
    else if !MarketWinner(t, m, TeamOne) && !MarketWinner(t, m, TeamTwo) then
      r == Stopped(Pending, WinnerMarketNotSettled, score)
    else if MarketWinner(t, m, TeamOne) && MarketWinner(t, m, TeamTwo) then
      r == Stopped(Conflict, WinnerMarketConflict, score)
    else
      var s := if MarketWinner(t, m, TeamOne) then TeamOne else TeamTwo;
      && ListsOutcomes(t, m, r.outcomes)
      && r == if score.Some? && score.value != s
              then MapFinal(Conflict, ScoreMarketConflict, None, score, Some(s), r.outcomes)
              else MapFinal(Confirmed, FinalConfirmed, Some(s), score, Some(s), r.outcomes)
  }

  /* ---------- one group ---------- */

  datatype Verdict = GroupInvalid | GroupUnsettled | GroupSettled(winner: Side, one: OddsRow, two: OddsRow)

  ghost predicate IsVerdict(t: Teams, m: multiset<OddsRow>, g: string, v: Verdict) {
    match v
    case GroupInvalid => InvalidGroup(t, m, g)
    case GroupUnsettled => !InvalidGroup(t, m, g) && forall one, two :: !SettledGroup(t, m, g, one, two)
    case GroupSettled(s, one, two) =>
      && !InvalidGroup(t, m, g) && SettledGroup(t, m, g, one, two)
      && RowOf(s, one, two).win == One && RowOf(Other(s), one, two).win == Zero
  }

  /** What the loop over a group knows after some rows: the row of a side, and whether there were more. */
  ghost predicate Tracks(t: Teams, m: multiset<OddsRow>, g: string, s: Side, found: Option<OddsRow>) {
    && (found.None? ==> forall r :: !Represents(t, m, g, s, r))
    && (found.Some? ==> Represents(t, m, g, s, found.value))
    && (found.Some? && !Doubled(t, m, g, s) ==>
          m[found.value] == 1 && forall r | Represents(t, m, g, s, r) :: r == found.value)
  }

  /** Adding a row to a group keeps track of the side, and doubles it exactly when the side was there. */
  lemma TrackRow(t: Teams, m: multiset<OddsRow>, g: string, s: Side, found: Option<OddsRow>, row: OddsRow)
    requires Tracks(t, m, g, s, found) && row.groupId == g
    ensures Tracks(t, m + multiset{row}, g, s, if SideOf(t, row) == Some(s) then Some(row) else found)
    ensures Doubled(t, m + multiset{row}, g, s) <==>
              Doubled(t, m, g, s) || (SideOf(t, row) == Some(s) && found.Some?)
  {
    var m' := m + multiset{row};
    assert forall r :: m'[r] == if r == row then m[r] + 1 else m[r];
    assert forall r :: InGroup(m', g, r) <==> InGroup(m, g, r) || r == row;
    assert forall r :: Represents(t, m', g, s, r) <==>
             Represents(t, m, g, s, r) || (r == row && SideOf(t, row) == Some(s));
    if Doubled(t, m, g, s) {
      StaysDoubled(t, m, g, s, row);
    } else if SideOf(t, row) == Some(s) && found.Some? {
      assert InGroup(m', g, row) && InGroup(m', g, found.value);
      assert found.value == row ==> m'[row] > 1;
      assert Doubled(t, m', g, s);
    } else if Doubled(t, m', g, s) {
      NewlyDoubled(t, m, g, s, row);
    }
  }

  lemma StaysDoubled(t: Teams, m: multiset<OddsRow>, g: string, s: Side, row: OddsRow)
    requires Doubled(t, m, g, s)
    ensures Doubled(t, m + multiset{row}, g, s) && exists r :: Represents(t, m, g, s, r)
  {
    var m' := m + multiset{row};
    var d :| InGroup(m, g, d) && SideOf(t, d) == Some(s)
             && (m[d] > 1 || exists r :: InGroup(m, g, r) && SideOf(t, r) == Some(s) && r != d);
    assert Represents(t, m, g, s, d) && InGroup(m', g, d) && m'[d] >= m[d];
    if m[d] <= 1 {
      var r :| InGroup(m, g, r) && SideOf(t, r) == Some(s) && r != d;
      assert InGroup(m', g, r);
    }
  }

  lemma NewlyDoubled(t: Teams, m: multiset<OddsRow>, g: string, s: Side, row: OddsRow)
    requires Doubled(t, m + multiset{row}, g, s) && row.groupId == g
    ensures Doubled(t, m, g, s) || (SideOf(t, row) == Some(s) && exists r :: Represents(t, m, g, s, r))
  {
    var m' := m + multiset{row};
    var d :| InGroup(m', g, d) && SideOf(t, d) == Some(s)
             && (m'[d] > 1 || exists r :: InGroup(m', g, r) && SideOf(t, r) == Some(s) && r != d);
    assert d == row ==> m'[d] == m[d] + 1;
    assert d != row ==> m'[d] == m[d] && Represents(t, m, g, s, d);
    assert m[row] > 0 && SideOf(t, row) == Some(s) ==> Represents(t, m, g, s, row);
    if m'[d] <= 1 {
      var r :| InGroup(m', g, r) && SideOf(t, r) == Some(s) && r != d;
      assert r != row ==> Represents(t, m, g, s, r) && InGroup(m, g, r);
    }
  }

  /** What the loop over a group's rows knows. */
  ghost predicate TracksBoth(t: Teams, m: multiset<OddsRow>, g: string, one: Option<OddsRow>, two: Option<OddsRow>,
                             duplicateSide: bool, unknownSide: bool)
  {
    && Tracks(t, m, g, TeamOne, one) && Tracks(t, m, g, TeamTwo, two)
    && (duplicateSide <==> Doubled(t, m, g, TeamOne) || Doubled(t, m, g, TeamTwo))
    && (unknownSide <==> exists row :: InGroup(m, g, row) && SideOf(t, row) == None)
  }

  lemma TrackBoth(t: Teams, m: multiset<OddsRow>, g: string, one: Option<OddsRow>, two: Option<OddsRow>,
                  duplicateSide: bool, unknownSide: bool, row: OddsRow)
    requires TracksBoth(t, m, g, one, two, duplicateSide, unknownSide) && row.groupId == g
    ensures var side := SideOf(t, row);
            TracksBoth(t, m + multiset{row}, g,
                       if side == Some(TeamOne) then Some(row) else one,
                       if side == Some(TeamTwo) then Some(row) else two,
                       duplicateSide || (side == Some(TeamOne) && one.Some?) || (side == Some(TeamTwo) && two.Some?),
                       unknownSide || side == None)
  {
    TrackRow(t, m, g, TeamOne, one, row);
    TrackRow(t, m, g, TeamTwo, two, row);
    var m' := m + multiset{row};
    assert forall r :: InGroup(m', g, r) <==> InGroup(m, g, r) || r == row;
  }

  method TrackSides(t: Teams, g: string, rows: seq<OddsRow>)
    returns (one: Option<OddsRow>, two: Option<OddsRow>, duplicateSide: bool, unknownSide: bool)
    requires forall row | row in rows :: row.groupId == g
    ensures TracksBoth(t, multiset(rows), g, one, two, duplicateSide, unknownSide)
  {
    one, two, duplicateSide, unknownSide := None, None, false, false;
    ghost var seen: multiset<OddsRow> := multiset{};
    TracksNothing(t, g);
    for i := 0 to |rows|
      invariant seen == multiset(rows[..i])
      invariant TracksBoth(t, seen, g, one, two, duplicateSide, unknownSide)
    {
      var row := rows[i];
      assert row in rows;
      TrackBoth(t, seen, g, one, two, duplicateSide, unknownSide, row);
      PrefixMultiset(rows, i);
      seen := seen + multiset{row};
      var side := SideOf(t, row);
      unknownSide := unknownSide || side == None;
      duplicateSide := duplicateSide || (side == Some(TeamOne) && one.Some?) || (side == Some(TeamTwo) && two.Some?);
      one := if side == Some(TeamOne) then Some(row) else one;
      two := if side == Some(TeamTwo) then Some(row) else two;
    }
    assert rows[..|rows|] == rows;
  }

  lemma TracksNothing(t: Teams, g: string)
    ensures TracksBoth(t, multiset{}, g, None, None, false, false)
  {
  }

  lemma PrefixMultiset(rows: seq<OddsRow>, i: nat)
    requires i < |rows|
    ensures multiset(rows[..i + 1]) == multiset(rows[..i]) + multiset{rows[i]}
  {
    assert rows[..i + 1] == rows[..i] + [rows[i]];
  }

  method InspectGroup(t: Teams, g: string, rows: seq<OddsRow>) returns (v: Verdict)
    requires forall row | row in rows :: row.groupId == g
    ensures IsVerdict(t, multiset(rows), g, v)
  {
    var one, two, duplicateSide, unknownSide := TrackSides(t, g, rows);
    if duplicateSide || unknownSide { return GroupInvalid; }
    if one.None? || two.None? { return GroupUnsettled; }
    OnlyPair(t, multiset(rows), g, one.value, two.value);
    if !one.value.settled || !two.value.settled || !Strict(one.value.win) || !Strict(two.value.win) {
      return GroupUnsettled;
    }
    if one.value.win == two.value.win || one.value.oddsId == "" || two.value.oddsId == "" { return GroupInvalid; }
    v := GroupSettled(if one.value.win == One then TeamOne else TeamTwo, one.value, two.value);
  }

  /** In a well-formed group each side has one row, so there is at most one settled pair. */
  lemma OnlyPair(t: Teams, m: multiset<OddsRow>, g: string, one: OddsRow, two: OddsRow)
    requires !Malformed(t, m, g) && Represents(t, m, g, TeamOne, one) && Represents(t, m, g, TeamTwo, two)
    ensures forall a, b | SettledGroup(t, m, g, a, b) :: a == one && b == two
    ensures SettledGroup(t, m, g, one, two) <==> one.settled && two.settled && Strict(one.win) && Strict(two.win)
  {
    forall a, b | SettledGroup(t, m, g, a, b) ensures a == one && b == two {
      OneRowPerSide(t, m, g, TeamOne, a, one);
      OneRowPerSide(t, m, g, TeamTwo, b, two);
    }
  }

  /** What a verdict means depends only on the rows of its own group. */
  lemma VerdictIsLocal(t: Teams, m: multiset<OddsRow>, group: multiset<OddsRow>, g: string, v: Verdict)
    requires IsVerdict(t, group, g, v)
    requires forall row: OddsRow | row.groupId == g :: m[row] == group[row]
    ensures IsVerdict(t, m, g, v)
  {
    assert forall row :: InGroup(m, g, row) <==> InGroup(group, g, row);
    forall s ensures Doubled(t, m, g, s) <==> Doubled(t, group, g, s) {}
    assert Malformed(t, m, g) <==> Malformed(t, group, g);
    assert forall one, two :: SettledGroup(t, m, g, one, two) <==> SettledGroup(t, group, g, one, two);
  }

  /** There is one settled pair in a well-formed group, so the verdict settles the winner and what is said. */
  lemma VerdictSettles(t: Teams, m: multiset<OddsRow>, g: string, v: Verdict)
    requires IsVerdict(t, m, g, v) && !v.GroupInvalid?
    ensures forall s :: GroupWinner(t, m, g, s) <==> v.GroupSettled? && v.winner == s
    ensures forall id, won :: GroupSays(t, m, g, id, won) <==>
              v.GroupSettled? && ((id == v.one.oddsId && (won <==> v.winner == TeamOne))
                                  || (id == v.two.oddsId && (won <==> v.winner == TeamTwo)))
  {
    if v.GroupSettled? {
      OnlyPair(t, m, g, v.one, v.two);
      forall id, won
        ensures GroupSays(t, m, g, id, won) <==>
                  (id == v.one.oddsId && (won <==> v.winner == TeamOne))
                      || (id == v.two.oddsId && (won <==> v.winner == TeamTwo))
      {
        assert RowOf(TeamOne, v.one, v.two) == v.one && RowOf(TeamTwo, v.one, v.two) == v.two;
      }
    }
  }

  lemma OneRowPerSide(t: Teams, m: multiset<OddsRow>, g: string, s: Side, a: OddsRow, b: OddsRow)
    requires !Malformed(t, m, g) && Represents(t, m, g, s, a) && Represents(t, m, g, s, b)
    ensures a == b
  {
    assert !Doubled(t, m, g, s);
    assert InGroup(m, g, a) && InGroup(m, g, b);
  }

  /* ---------- all groups ---------- */

  /** The rows of one group, in order. */
  function OfGroup(rows: seq<OddsRow>, g: string): seq<OddsRow> {
    if rows == [] then []
    else OfGroup(rows[..|rows| - 1], g) + if rows[|rows| - 1].groupId == g then [rows[|rows| - 1]] else []
  }

  lemma {:induction false} OfGroupKeepsMultiplicity(rows: seq<OddsRow>, g: string)
    ensures forall row | row in OfGroup(rows, g) :: row.groupId == g
    ensures forall row: OddsRow | row.groupId == g :: multiset(rows)[row] == multiset(OfGroup(rows, g))[row]
  {
    if rows != [] {
      var init, last := rows[..|rows| - 1], rows[|rows| - 1];
      assert rows == init + [last];
      OfGroupKeepsMultiplicity(init, g);
    }
  }

  /** The rows of each group. */
  type Grouping = string -> seq<OddsRow>

  function GroupingOf(rows: seq<OddsRow>): Grouping {
    (g: string) => OfGroup(rows, g)
  }

  /** The groups hold the rows of each named group, and the ids name these groups. */
  ghost predicate Grouped(of: Grouping, ids: seq<string>, groups: map<string, seq<OddsRow>>) {
    && (forall g :: g in ids <==> g in groups)
    && (forall g :: g in groups <==> g != "" && of(g) != [])
    && (forall g | g in groups :: groups[g] == of(g))
  }

  lemma OfGroupOneMore(rows: seq<OddsRow>, row: OddsRow, g: string)
    ensures OfGroup(rows + [row], g) == OfGroup(rows, g) + if row.groupId == g then [row] else []
  {
    assert rows + [row] != [] && (rows + [row])[..|rows + [row]| - 1] == rows;
  }

  lemma GroupedOneMore(of: Grouping, more: Grouping, ids: seq<string>, groups: map<string, seq<OddsRow>>, row: OddsRow)
    requires Grouped(of, ids, groups)
    requires forall g :: more(g) == of(g) + if row.groupId == g then [row] else []
    ensures var g := row.groupId;
            if g == "" then Grouped(more, ids, groups)
            else if g in groups then Grouped(more, ids, groups[g := groups[g] + [row]])
            else Grouped(more, ids + [g], groups[g := [row]])
  {
    assert forall g | row.groupId != g :: more(g) == of(g);
  }

  method CollectGroups(rows: seq<OddsRow>) returns (ids: seq<string>, groups: map<string, seq<OddsRow>>)
    ensures Grouped(GroupingOf(rows), ids, groups)
  {
    ids, groups := [], map[];
    for i := 0 to |rows|
      invariant Grouped(GroupingOf(rows[..i]), ids, groups)
    {
      var g := rows[i].groupId;
      assert rows[..i + 1] == rows[..i] + [rows[i]];
      forall h ensures GroupingOf(rows[..i + 1])(h) == GroupingOf(rows[..i])(h) + if g == h then [rows[i]] else [] {
        OfGroupOneMore(rows[..i], rows[i], h);
      }
      GroupedOneMore(GroupingOf(rows[..i]), GroupingOf(rows[..i + 1]), ids, groups, rows[i]);
      if g != "" {
        if g !in groups {
          ids := ids + [g];
          groups := groups[g := [rows[i]]];
        } else {
          groups := groups[g := groups[g] + [rows[i]]];
        }
      }
    }
    assert rows[..|rows|] == rows;
  }

  method Inspect(t: Teams, rows: seq<OddsRow>, g: string, group: seq<OddsRow>) returns (v: Verdict)
    requires group == OfGroup(rows, g)
    ensures IsVerdict(t, multiset(rows), g, v)
  {
    OfGroupKeepsMultiplicity(rows, g);
    v := InspectGroup(t, g, group);
    VerdictIsLocal(t, multiset(rows), multiset(group), g, v);
  }

  /** The listed groups so far say this of a selection. */
  ghost predicate SaidBy(t: Teams, m: multiset<OddsRow>, ids: seq<string>, id: string, won: bool) {
    exists g :: g in ids && GroupSays(t, m, g, id, won)
  }

  /** One of the listed groups so far names this winner. */
  ghost predicate WonBy(t: Teams, m: multiset<OddsRow>, ids: seq<string>, s: Side) {
    exists g :: g in ids && GroupWinner(t, m, g, s)
  }

  lemma OneMoreGroup(t: Teams, m: multiset<OddsRow>, ids: seq<string>, g: string)
    ensures forall s :: WonBy(t, m, ids + [g], s) <==> WonBy(t, m, ids, s) || GroupWinner(t, m, g, s)
    ensures forall id, won :: SaidBy(t, m, ids + [g], id, won) <==>
              SaidBy(t, m, ids, id, won) || GroupSays(t, m, g, id, won)
  {
    var all := ids + [g];
    assert forall h :: h in all <==> h in ids || h == g;
    forall s ensures WonBy(t, m, all, s) <==> WonBy(t, m, ids, s) || GroupWinner(t, m, g, s) {
      if WonBy(t, m, ids, s) { var h :| h in ids && GroupWinner(t, m, h, s); assert h in all; }
    }
    forall id, won ensures SaidBy(t, m, all, id, won) <==> SaidBy(t, m, ids, id, won) || GroupSays(t, m, g, id, won) {
      if SaidBy(t, m, ids, id, won) { var h :| h in ids && GroupSays(t, m, h, id, won); assert h in all; }
    }
  }

  /** The winners and selections recorded after some groups are those the groups name. */
  ghost predicate Recorded(t: Teams, m: multiset<OddsRow>, ids: seq<string>, winners: set<Side>,
                           settled: map<string, bool>)
  {
    && (forall g | g in ids :: !InvalidGroup(t, m, g))
    && (forall s :: s in winners <==> WonBy(t, m, ids, s))
    && (forall id, won :: (id in settled && settled[id] == won) <==> SaidBy(t, m, ids, id, won))
  }

  /** A selection recorded both ways, or about to be. */
  predicate Clashes(settled: map<string, bool>, id: string, won: bool) {
    id in settled && settled[id] != won
  }

  lemma RecordedOneMore(t: Teams, m: multiset<OddsRow>, ids: seq<string>, g: string, winners: set<Side>,
                        settled: map<string, bool>)
    requires forall h | h in ids + [g] :: !InvalidGroup(t, m, h)
    requires forall s :: s in winners <==> WonBy(t, m, ids, s) || GroupWinner(t, m, g, s)
    requires forall id, won :: (id in settled && settled[id] == won) <==>
               SaidBy(t, m, ids, id, won) || GroupSays(t, m, g, id, won)
    ensures Recorded(t, m, ids + [g], winners, settled)
  {
    OneMoreGroup(t, m, ids, g);
  }

  lemma RecordUnsettled(t: Teams, m: multiset<OddsRow>, ids: seq<string>, winners: set<Side>,
                        settled: map<string, bool>, g: string)
    requires Recorded(t, m, ids, winners, settled) && IsVerdict(t, m, g, GroupUnsettled)
    ensures Recorded(t, m, ids + [g], winners, settled)
  {
    VerdictSettles(t, m, g, GroupUnsettled);
    RecordedOneMore(t, m, ids, g, winners, settled);
  }

  lemma RecordSettled(t: Teams, m: multiset<OddsRow>, ids: seq<string>, winners: set<Side>, settled: map<string, bool>,
                      g: string, v: Verdict)
    requires Recorded(t, m, ids, winners, settled) && IsVerdict(t, m, g, v) && v.GroupSettled?
    requires !Clashes(settled, v.one.oddsId, v.winner == TeamOne)
    requires !Clashes(settled[v.one.oddsId := v.winner == TeamOne], v.two.oddsId, v.winner == TeamTwo)
    ensures Recorded(t, m, ids + [g], winners + {v.winner},
                     settled[v.one.oddsId := v.winner == TeamOne][v.two.oddsId := v.winner == TeamTwo])
  {
    VerdictSettles(t, m, g, v);
    RecordTwo(settled, v.one.oddsId, v.winner == TeamOne, v.two.oddsId, v.winner == TeamTwo,
              (id, won) => SaidBy(t, m, ids, id, won),
              (id, won) => SaidBy(t, m, ids, id, won) || GroupSays(t, m, g, id, won));
    RecordedOneMore(t, m, ids, g, winners + {v.winner},
                    settled[v.one.oddsId := v.winner == TeamOne][v.two.oddsId := v.winner == TeamTwo]);
  }

  /** Recording two selections that clash with nothing adds exactly these two. */
  lemma RecordTwo(settled: map<string, bool>, first: string, firstWon: bool, second: string, secondWon: bool,
                  before: (string, bool) -> bool, after: (string, bool) -> bool)
    requires !Clashes(settled, first, firstWon) && !Clashes(settled[first := firstWon], second, secondWon)
    requires forall id, won :: (id in settled && settled[id] == won) <==> before(id, won)
    requires forall id, won :: after(id, won) <==>
               before(id, won) || (id == first && won == firstWon) || (id == second && won == secondWon)
    ensures var recorded := settled[first := firstWon][second := secondWon];
            forall id, won :: (id in recorded && recorded[id] == won) <==> after(id, won)
  {
  }

  lemma ClashIsInvalid(t: Teams, m: multiset<OddsRow>, ids: seq<string>, winners: set<Side>, settled: map<string, bool>,
                       g: string, v: Verdict)
    requires Recorded(t, m, ids, winners, settled) && IsVerdict(t, m, g, v) && v.GroupSettled?
    requires g != "" && forall h | h in ids :: h != ""
    requires Clashes(settled, v.one.oddsId, v.winner == TeamOne)
             || Clashes(settled[v.one.oddsId := v.winner == TeamOne], v.two.oddsId, v.winner == TeamTwo)
    ensures MarketsInvalid(t, m)
  {
    VerdictSettles(t, m, g, v);
    forall id, won | (id in settled && settled[id] == won) || GroupSays(t, m, g, id, won) ensures Says(t, m, id, won) {
      if id in settled && settled[id] == won {
        assert SaidBy(t, m, ids, id, won);
        var h :| h in ids && GroupSays(t, m, h, id, won);
      }
    }
    assert GroupSays(t, m, g, v.one.oddsId, v.winner == TeamOne);
    assert GroupSays(t, m, g, v.two.oddsId, v.winner == TeamTwo);
    var id := if Clashes(settled, v.one.oddsId, v.winner == TeamOne) then v.one.oddsId else v.two.oddsId;
    assert id in settled ==> Says(t, m, id, settled[id]);
    assert Says(t, m, id, true) && Says(t, m, id, false);
  }

  method ParseMarkets(t: Teams, rows: seq<OddsRow>, score: Option<Side>) returns (r: MapFinal)
    ensures IsMarketFinal(t, multiset(rows), score, r)
  {
    var ids, groups := CollectGroups(rows);
    var winners: set<Side> := {};
    var settled: map<string, bool> := map[];
    for i := 0 to |ids|
      invariant Recorded(t, multiset(rows), ids[..i], winners, settled)
    {
      assert ids[i] in ids && ids[..i + 1] == ids[..i] + [ids[i]];
      assert forall h | h in ids[..i] :: h in ids;
      var v := Inspect(t, rows, ids[i], groups[ids[i]]);
      var valid;
      valid, winners, settled := TakeVerdict(t, multiset(rows), ids[..i], ids[i], v, winners, settled);
      if !valid { return Stopped(Conflict, WinnerMarketInvalid, score); }
    }
    assert ids[..|ids|] == ids;
    AllGroupsRecorded(t, rows, ids, winners, settled);
    var outcomes := SortedItems(settled);
    r := Conclude(t, multiset(rows), winners, outcomes, score);
  }

  /** One turn of the loop over the groups: take in what a group says, unless it is invalid or clashes. */
  method TakeVerdict(ghost t: Teams, ghost m: multiset<OddsRow>, ghost ids: seq<string>, ghost g: string, v: Verdict,
                     winners: set<Side>, settled: map<string, bool>)
    returns (valid: bool, allWinners: set<Side>, allSettled: map<string, bool>)
    requires Recorded(t, m, ids, winners, settled) && IsVerdict(t, m, g, v)
    requires g != "" && forall h | h in ids :: h != ""
    ensures if valid then Recorded(t, m, ids + [g], allWinners, allSettled) else MarketsInvalid(t, m)
  {
    if v.GroupInvalid? { return false, winners, settled; }
    if v.GroupUnsettled? {
      RecordUnsettled(t, m, ids, winners, settled, g);
      return true, winners, settled;
    }
    var oneWon := v.winner == TeamOne;
    if v.one.oddsId in settled && settled[v.one.oddsId] != oneWon {
      ClashIsInvalid(t, m, ids, winners, settled, g, v);
      return false, winners, settled;
    }
    var withOne := settled[v.one.oddsId := oneWon];
    if v.two.oddsId in withOne && withOne[v.two.oddsId] == oneWon {
      ClashIsInvalid(t, m, ids, winners, settled, g, v);
      return false, winners, settled;
    }
    RecordSettled(t, m, ids, winners, settled, g, v);
    valid, allWinners, allSettled := true, winners + {v.winner}, withOne[v.two.oddsId := !oneWon];
  }

  /** The result once all groups are recorded. */
  method Conclude(ghost t: Teams, ghost m: multiset<OddsRow>, winners: set<Side>, outcomes: seq<(string, bool)>,
                  score: Option<Side>)
    returns (r: MapFinal)
    requires !MarketsInvalid(t, m) && ListsOutcomes(t, m, outcomes)
    requires forall s :: s in winners <==> MarketWinner(t, m, s)
    ensures IsMarketFinal(t, m, score, r)
  {
    if winners == {} { return Stopped(Pending, WinnerMarketNotSettled, score); }
    if TeamOne in winners && TeamTwo in winners { return Stopped(Conflict, WinnerMarketConflict, score); }
    var marketWinner := if TeamOne in winners then TeamOne else TeamTwo;
    assert marketWinner in winners by { SomeSide(winners); }
    if score.Some? && score.value != marketWinner {
      return MapFinal(Conflict, ScoreMarketConflict, None, score, Some(marketWinner), outcomes);
    }
    r := MapFinal(Confirmed, FinalConfirmed, Some(marketWinner), score, Some(marketWinner), outcomes);
  }

  lemma SomeSide(sides: set<Side>)
    ensures sides == {} || TeamOne in sides || TeamTwo in sides
  {
    SomeMember(sides);
    if s :| s in sides {
      match s
      case TeamOne =>
      case TeamTwo =>
    }
  }

  /** Once every group is recorded, the record is what the whole evidence says. */
  lemma AllGroupsRecorded(t: Teams, rows: seq<OddsRow>, ids: seq<string>, winners: set<Side>,
                          settled: map<string, bool>)
    requires Recorded(t, multiset(rows), ids, winners, settled)
    requires forall g :: g in ids <==> g != "" && OfGroup(rows, g) != []
    ensures !MarketsInvalid(t, multiset(rows))
    ensures forall s :: s in winners <==> MarketWinner(t, multiset(rows), s)
    ensures forall id, won :: (id in settled && settled[id] == won) <==> Says(t, multiset(rows), id, won)
  {
    var m := multiset(rows);
    forall g | g != "" && g !in ids
      ensures !InvalidGroup(t, m, g) && (forall s :: !GroupWinner(t, m, g, s))
      ensures forall id, won :: !GroupSays(t, m, g, id, won)
    {
      OfGroupKeepsMultiplicity(rows, g);
      assert forall row :: !InGroup(m, g, row);
    }
    forall id, won ensures (id in settled && settled[id] == won) <==> Says(t, m, id, won) {
      if SaidBy(t, m, ids, id, won) { var g :| g in ids && GroupSays(t, m, g, id, won); assert g != ""; }
      if Says(t, m, id, won) { var g :| g != "" && GroupSays(t, m, g, id, won); }
    }
  }

  predicate ItemBefore(a: (string, bool), b: (string, bool)) {
    TextBefore(a.0, b.0)
  }

  /** The settled selections with their outcomes, ordered by id. */
  method SortedItems(settled: map<string, bool>) returns (items: seq<(string, bool)>)
    ensures forall i, j | 0 <= i < j < |items| :: TextBefore(items[i].0, items[j].0)
    ensures forall id, won :: (id, won) in items <==> id in settled && settled[id] == won
  {
    var ids := settled.Keys;
    var listed: seq<(string, bool)> := [];
    while ids != {}
      invariant ids <= settled.Keys
      invariant forall x: (string, bool) :: x in listed <==> x.0 in settled && settled[x.0] == x.1 && x.0 !in ids
      decreases |ids|
    {
      SomeMember(ids);
      var id :| id in ids;
      listed := listed + [(id, settled[id])];
      ids := ids - {id};
    }
    ItemsAreOrdered(listed);
    SortLists(ItemBefore, listed);
    items := Sort(ItemBefore, listed);
    assert forall x :: x in items <==> x in Elems(listed);
    forall i, j | 0 <= i < j < |items|
      ensures TextBefore(items[i].0, items[j].0)
    {
      assert ItemBefore(items[i], items[j]);
    }
  }

  lemma ItemsAreOrdered(listed: seq<(string, bool)>)
    requires forall x, y | x in listed && y in listed && x.0 == y.0 :: x == y
    ensures StrictTotalOn(ItemBefore, Elems(listed))
  {
    forall x | x in Elems(listed) ensures !ItemBefore(x, x) { TextIrreflexive(x.0); }
    forall x, y | x in Elems(listed) && y in Elems(listed) && x != y ensures ItemBefore(x, y) || ItemBefore(y, x) {
      TextTotal(x.0, y.0);
    }
    forall x, y, z | x in Elems(listed) && y in Elems(listed) && z in Elems(listed) && ItemBefore(x, y)
        && ItemBefore(y, z)
      ensures ItemBefore(x, z)
    {
      TextTransitive(x.0, y.0, z.0);
    }
  }
}
