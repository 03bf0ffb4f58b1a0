/** The training corpus and its replay, and why rows from after the cutoff cannot influence them. */
module TrainingReplay {
  import opened Wrappers
  import opened Ordering
  import opened TeamRating

  /** Order by (started, completed, match id, event id); match ids are distinct in a corpus. */
  predicate RowBefore(a: RatingMapInput, b: RatingMapInput) {
    a.startedAt < b.startedAt
    || (a.startedAt == b.startedAt
        && (a.completedAt < b.completedAt || (a.completedAt == b.completedAt && a.matchId < b.matchId)))
  }

  ghost predicate ConsistentRows(rows: set<RatingMapInput>) {
    forall x, y | x in rows && y in rows && x.matchId == y.matchId :: x == y
  }

  lemma RowOrderIsTotal(rows: set<RatingMapInput>)
    requires ConsistentRows(rows)
    ensures StrictTotalOn(RowBefore, rows)
  {
  }

  predicate Eligible(row: RatingMapInput, cutoff: int) {
    row.usableAt.Some? && row.usableAt.value <= cutoff
  }

  ghost function EligibleRows(rows: set<RatingMapInput>, cutoff: int): set<RatingMapInput> {
    set row | row in rows && Eligible(row, cutoff)
  }

  /** `r` is the corpus of `rows`: the eligible rows in order, or a conflict. */
  ghost predicate IsCorpusOf(rows: set<RatingMapInput>, cutoff: int, r: Result<seq<RatingMapInput>, RatingError>) {
    if ConsistentRows(rows) then r.Ok? && IsListing(RowBefore, EligibleRows(rows, cutoff), r.value)
    else r == Err(ConflictingRows)
  }

  /** One row per match id, and exactly these rows. */
  ghost predicate IndexedRows(byMatch: map<int, RatingMapInput>, rows: set<RatingMapInput>) {
    && (forall id | id in byMatch :: byMatch[id].matchId == id)
    && (forall row :: row in rows <==> row.matchId in byMatch && byMatch[row.matchId] == row)
  }

  lemma IndexOneMoreRow(byMatch: map<int, RatingMapInput>, rows: set<RatingMapInput>, row: RatingMapInput)
    requires IndexedRows(byMatch, rows)
    ensures ConsistentRows(rows)
    ensures if row.matchId in byMatch && byMatch[row.matchId] != row then !ConsistentRows(rows + {row})
            else IndexedRows(byMatch[row.matchId := row], rows + {row})
    ensures row.matchId in byMatch && byMatch[row.matchId] == row ==> row in rows
  {
    if row.matchId in byMatch && byMatch[row.matchId] != row {
      assert byMatch[row.matchId] in rows + {row} && row in rows + {row};
    }
  }

  lemma RowsOneMore(rows: seq<RatingMapInput>, i: nat)
    requires i < |rows|
    ensures Elems(rows[..i + 1]) == Elems(rows[..i]) + {rows[i]}
    ensures ConsistentRows(Elems(rows)) ==> ConsistentRows(Elems(rows[..i + 1]))
  {
    assert rows[..i + 1] == rows[..i] + [rows[i]];
    assert Elems(rows[..i + 1]) <= Elems(rows);
  }

  method DistinctRows(rows: seq<RatingMapInput>) returns (r: Result<seq<RatingMapInput>, RatingError>)
    ensures if ConsistentRows(Elems(rows)) then r.Ok? && Elems(r.value) == Elems(rows) else r == Err(ConflictingRows)
  {
    var byMatch: map<int, RatingMapInput> := map[];
    var distinct: seq<RatingMapInput> := [];
    for i := 0 to |rows|
      invariant IndexedRows(byMatch, Elems(rows[..i])) && Elems(distinct) == Elems(rows[..i])
    {
      var row := rows[i];
      RowsOneMore(rows, i);
      IndexOneMoreRow(byMatch, Elems(rows[..i]), row);
      if row.matchId in byMatch && byMatch[row.matchId] != row { return Err(ConflictingRows); }
      if row.matchId !in byMatch { distinct := distinct + [row]; }
      byMatch := byMatch[row.matchId := row];
    }
    assert rows[..|rows|] == rows;
    IndexIsConsistentRows(byMatch, Elems(rows));
    r := Ok(distinct);
  }

  lemma IndexIsConsistentRows(byMatch: map<int, RatingMapInput>, rows: set<RatingMapInput>)
    requires IndexedRows(byMatch, rows)
    ensures ConsistentRows(rows)
  {
  }

  function EligibleOnly(rows: seq<RatingMapInput>, cutoff: int): (kept: seq<RatingMapInput>)
    ensures forall row :: row in kept <==> row in rows && Eligible(row, cutoff)
  {
    if rows == [] then []
    else (if Eligible(rows[0], cutoff) then [rows[0]] else []) + EligibleOnly(rows[1..], cutoff)
  }

  method CanonicalTrainingCorpus(rows: seq<RatingMapInput>, cutoff: int)
    returns (r: Result<seq<RatingMapInput>, RatingError>)
    ensures IsCorpusOf(Elems(rows), cutoff, r)
  {
    r := DistinctRows(rows);
    if r.Ok? {
      var eligible := EligibleOnly(r.value, cutoff);
      assert forall row :: row in r.value <==> row in Elems(r.value);
      assert Elems(eligible) == EligibleRows(Elems(rows), cutoff);
      RowOrderIsTotal(Elems(rows));
      SortLists(RowBefore, eligible);
      r := Ok(Sort(RowBefore, eligible));
    }
  }

  /** The states a corpus replays to, or the failure. */
  function CorpusStates(m: Model, corpus: Result<seq<RatingMapInput>, RatingError>): Result<States, RatingError> {
    if corpus.Err? then Err(corpus.error) else Fold(m, map[], corpus.value)
  }

  lemma {:induction false} FoldKeepsKeys(m: Model, states: States, rows: seq<RatingMapInput>)
    requires forall team | team in states :: states[team].teamId == team
    ensures Fold(m, states, rows).Ok? ==>
              forall team | team in Fold(m, states, rows).value :: Fold(m, states, rows).value[team].teamId == team
    decreases |rows|
  {
    if rows != [] {
      var next := Apply(m, states, rows[0]);
      if next.Ok? { FoldKeepsKeys(m, next.value, rows[1..]); }
    }
  }

  /** `r` is what the corpus replays to: its sorted states, or its failure. */
  ghost predicate Gives(m: Model, corpus: Result<seq<RatingMapInput>, RatingError>,
                        r: Result<seq<TeamRatingState>, RatingError>)
  {
    var states := CorpusStates(m, corpus);
    if states.Err? then r == Err(states.error) else r.Ok? && Represents(r.value, states.value)
  }

  ghost predicate IsTrainingReplay(m: Model, rows: set<RatingMapInput>, cutoff: int,
                                   r: Result<seq<TeamRatingState>, RatingError>)
  {
    exists corpus :: IsCorpusOf(rows, cutoff, corpus) && Gives(m, corpus, r)
  }

  /** Each row of the corpus is applied at the moment its own result became usable. */
  method ReplayTeamRatings(m: Model, rows: seq<RatingMapInput>, cutoff: int)
    returns (r: Result<seq<TeamRatingState>, RatingError>)
    ensures IsTrainingReplay(m, Elems(rows), cutoff, r)
  {
    var listed := CanonicalTrainingCorpus(rows, cutoff);
    if listed.Err? {
      assert Gives(m, listed, Err(listed.error));
      return Err(listed.error);
    }
    var states: seq<TeamRatingState> := [];
    for i := 0 to |listed.value|
      invariant var done := Fold(m, map[], listed.value[..i]); done.Ok? && Represents(states, done.value)
    {
      var row := listed.value[i];
      assert row in listed.value;
      NextRowIsApplied(m, listed.value, i, states);
      var updated := UpdateTeamRatings(m, states, row, row.usableAt.value);
      if updated.Err? {
        assert Gives(m, listed, Err(updated.error));
        return Err(updated.error);
      }
      states := updated.value;
    }
    assert listed.value[..|listed.value|] == listed.value;
    assert Gives(m, listed, Ok(states));
    r := Ok(states);
  }

  /** The next row is applied to the states of the rows before it; if that fails, so does the whole corpus. */
  lemma NextRowIsApplied(m: Model, rows: seq<RatingMapInput>, i: nat, states: seq<TeamRatingState>)
    requires i < |rows| && Fold(m, map[], rows[..i]).Ok? && Represents(states, Fold(m, map[], rows[..i]).value)
    ensures NoConflict(states) && Fold(m, map[], rows[..i + 1]) == Apply(m, Index(states), rows[i])
    ensures Fold(m, map[], rows[..i + 1]).Err? ==> Fold(m, map[], rows) == Fold(m, map[], rows[..i + 1])
  {
    var done := Fold(m, map[], rows[..i]).value;
    assert rows == rows[..i + 1] + rows[i + 1..] && rows[..i + 1] == rows[..i] + [rows[i]];
    FoldAppend(m, map[], rows[..i], [rows[i]]);
    FoldAppend(m, map[], rows[..i + 1], rows[i + 1..]);
    FoldSingle(m, done, rows[i]);
    FoldKeepsKeys(m, map[], rows[..i]);
    RepresentsIndex(states, done);
  }

  lemma FoldSingle(m: Model, states: States, row: RatingMapInput)
    ensures Fold(m, states, [row]) == Apply(m, states, row)
  {
    assert [row][1..] == [];
    var next := Apply(m, states, row);
    if next.Ok? { assert Fold(m, next.value, [row][1..]) == next; }
  }

  /* ---------- causality ---------- */

  /**
   * Add any rows of new matches that are unusable by the cutoff, anywhere and in any number. If they
   * agree with each other, corpus and states stay exactly the same; if they do not, the whole
   * corpus is refused. So the additions are harmless precisely when they are consistent.
   */
  lemma LaterRowsHaveNoInfluence(m: Model, rows: seq<RatingMapInput>, added: seq<RatingMapInput>,
                                 mixed: seq<RatingMapInput>, cutoff: int,
                                 before: Result<seq<RatingMapInput>, RatingError>,
                                 after: Result<seq<RatingMapInput>, RatingError>)
    requires Elems(mixed) == Elems(rows) + Elems(added)
    requires forall row | row in added :: !Eligible(row, cutoff)
    requires forall row, earlier | row in added && earlier in rows :: earlier.matchId != row.matchId
    requires IsCorpusOf(Elems(rows), cutoff, before) && IsCorpusOf(Elems(mixed), cutoff, after)
    ensures before.Ok? ==> (after == before <==> ConsistentRows(Elems(added)))
    ensures before.Err? ==> after == before
    ensures ConsistentRows(Elems(added)) ==> CorpusStates(m, after) == CorpusStates(m, before)
  {
    assert forall row | row in rows :: row in Elems(mixed);
    assert forall row | row in added :: row in Elems(mixed);
    assert EligibleRows(Elems(mixed), cutoff) == EligibleRows(Elems(rows), cutoff);
    assert ConsistentRows(Elems(mixed)) ==> ConsistentRows(Elems(added)) && ConsistentRows(Elems(rows));
    if ConsistentRows(Elems(added)) && ConsistentRows(Elems(rows)) {
      assert ConsistentRows(Elems(mixed)) by {
        forall x, y | x in Elems(mixed) && y in Elems(mixed) && x.matchId == y.matchId ensures x == y {
          assert (x in rows || x in added) && (y in rows || y in added);
          assert x in Elems(rows) || x in Elems(added);
          assert y in Elems(rows) || y in Elems(added);
        }
      }
      RowOrderIsTotal(Elems(rows));
      ListingUnique(RowBefore, EligibleRows(Elems(rows), cutoff), before.value, after.value);
    }
  }

  /** Two later rows of one new match that disagree do change the outcome: the corpus is refused. */
  lemma ConflictingLaterRowsRefuseTheCorpus()
    ensures exists row: RatingMapInput, other: RatingMapInput, r ::
              !Eligible(row, 0) && !Eligible(other, 0)
              && IsCorpusOf({}, 0, Ok([])) && IsCorpusOf({row, other}, 0, r) && r.Err?
  {
    var row: RatingMapInput := MapInput(1, None, "event", 1, 2, None, 1, 2, {}, {}, true);
    var other: RatingMapInput := row.(radiantWin := false);
    assert row in {row, other} && other in {row, other} && row != other;
    assert IsCorpusOf({}, 0, Ok([]));
    assert IsCorpusOf({row, other}, 0, Err(ConflictingRows));
  }
}
