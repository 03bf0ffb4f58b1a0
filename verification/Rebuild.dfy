/**
 * The frozen seed and the rebuild of the rating states from the seed's manifest and the results
 * applied since. The rebuilt states depend on the results alone, not on how they were divided.
 */
module Rebuild {
  import opened Wrappers
  import opened Ordering
  import opened TeamRating
  import opened ReplayOrder
  import opened Chronology
  import opened Replay
  import opened TrainingReplay

  datatype Seed = Seed(
    config: TeamRatingConfig,
    asOf: int,
    trainingCutoff: int,
    manifest: seq<AuthoritativeResult>,
    replay: Replayed,
    frozenAt: int)

  ghost predicate CausalTiming(asOf: int, trainingCutoff: int, frozenAt: int) {
    trainingCutoff <= asOf <= frozenAt
  }

  /** The seed is exactly what building it again from its own manifest gives. */
  ghost predicate Frozen(math: RealMath, seed: Seed) {
    && CausalTiming(seed.asOf, seed.trainingCutoff, seed.frozenAt)
    && Admissible(Elems(seed.manifest), None, seed.trainingCutoff, None)
    && NoTeamOverlap(Elems(seed.manifest))
    && seed.manifest == Sort(ResultBefore, seed.manifest)
    && IsReplayOf(Model(math, seed.config), seed.manifest, seed.replay)
  }

  method BuildSeed(math: RealMath, config: TeamRatingConfig, results: seq<AuthoritativeResult>, asOf: int,
                   trainingCutoff: int, frozenAt: int) returns (r: Result<Seed, ReplayError>)
    ensures r.Ok? <==> CausalTiming(asOf, trainingCutoff, frozenAt)
                       && Admissible(Elems(results), None, trainingCutoff, None) && NoTeamOverlap(Elems(results))
    ensures r.Ok? ==> Frozen(math, r.value) && Elems(r.value.manifest) == Elems(results)
    ensures r.Ok? ==> r.value.config == config && r.value.asOf == asOf && r.value.trainingCutoff == trainingCutoff
                      && r.value.frozenAt == frozenAt && r.value.manifest == Sort(ResultBefore, results)
  {
    if trainingCutoff > asOf || asOf > frozenAt { return Err(SeedTimingNotCausal); }
    var ordered := CanonicalAuthoritativeResults(results, None, trainingCutoff, None);
    if ordered.Err? { return Err(ordered.error); }
    CanonicalKeepsElems(results);
    assert forall v | v in Elems(results) :: OwnFault(v, None, trainingCutoff, None) == None;
    var replayed := ReplayTeamRatingResults(Model(math, config), ordered.value, trainingCutoff);
    if replayed.Err? { return Err(replayed.error); }
    r := Ok(Seed(config, asOf, trainingCutoff, ordered.value, replayed.value, frozenAt));
  }

  lemma CanonicalKeepsElems(results: seq<AuthoritativeResult>)
    requires Consistent(Elems(results))
    ensures Elems(Sort(ResultBefore, results)) == Elems(results)
    ensures Sort(ResultBefore, Sort(ResultBefore, results)) == Sort(ResultBefore, results)
  {
    OrdersAreTotal(Elems(results));
    SortLists(ResultBefore, results);
    assert Elems(Sort(ResultBefore, results)) == Elems(results);
    SortDependsOnElems(ResultBefore, Sort(ResultBefore, results), results);
  }

  /** Exact replay: accept a seed exactly when building it again gives the same seed. */
  method VerifySeed(math: RealMath, seed: Seed) returns (ok: bool)
    ensures ok <==> Frozen(math, seed)
  {
    var rebuilt := BuildSeed(math, seed.config, seed.manifest, seed.asOf, seed.trainingCutoff, seed.frozenAt);
    ok := rebuilt.Ok? && rebuilt.value == seed;
    if rebuilt.Ok? && Frozen(math, seed) {
      ReplayDependsOnResultsOnly(Model(math, seed.config), seed.manifest, seed.replay,
                                 rebuilt.value.manifest, rebuilt.value.replay);
    }
  }

  datatype Rebuilt = Rebuilt(applied: seq<AuthoritativeResult>, replay: Replayed)

  ghost predicate Acceptable(math: RealMath, seed: Seed, applied: seq<AuthoritativeResult>, cutoff: int,
                             target: Option<int>)
  {
    && Frozen(math, seed)
    && Admissible(Elems(applied), Some(seed.asOf), cutoff, target)
    && Admissible(Elems(seed.manifest) + Elems(applied), None, cutoff, target)
    && NoTeamOverlap(Elems(seed.manifest) + Elems(applied))
  }

  /**
   * A rebuild accepts results exactly when they agree and no team's maps overlap, none is of the target
   * map or usable only after the cutoff, and the applied ones became usable after the seed was taken.
   */
  lemma AcceptableIffInTime(math: RealMath, seed: Seed, applied: seq<AuthoritativeResult>, cutoff: int,
                            target: Option<int>)
    ensures Acceptable(math, seed, applied, cutoff, target) <==>
              && Frozen(math, seed)
              && Consistent(Elems(seed.manifest) + Elems(applied))
              && NoTeamOverlap(Elems(seed.manifest) + Elems(applied))
              && (forall v | v in seed.manifest || v in applied ::
                    target != Some(v.row.matchId) && v.row.usableAt.value <= cutoff)
              && (forall v | v in applied :: seed.asOf < v.row.usableAt.value)
  {
    forall v { AdmittedIffInTime(v, None, cutoff, target); }
    forall v { AdmittedIffInTime(v, Some(seed.asOf), cutoff, target); }
    assert forall v :: v in Elems(seed.manifest) + Elems(applied) <==> v in seed.manifest || v in applied;
  }

  lemma SameReplay(m: Model, values: seq<AuthoritativeResult>, others: seq<AuthoritativeResult>, out: Replayed)
    requires Consistent(Elems(values)) && Elems(values) == Elems(others) && IsReplayOf(m, values, out)
    ensures IsReplayOf(m, others, out)
  {
    OrdersAreTotal(Elems(values));
    SortDependsOnElems(ReplayBefore, values, others);
  }

  lemma AdmittedIsReplayable(values: seq<AuthoritativeResult>, cutoff: int, target: Option<int>)
    requires Admissible(Elems(values), None, cutoff, target)
    ensures Replayable(Elems(values), cutoff) <==> NoTeamOverlap(Elems(values))
  {
    forall v | v in Elems(values) ensures v.row.usableAt.value <= cutoff {
      assert OwnFault(v, None, cutoff, target) == None;
    }
  }

  /** Admit the results and replay them. */
  method ReplayAdmitted(m: Model, values: seq<AuthoritativeResult>, cutoff: int, target: Option<int>)
    returns (r: Result<Replayed, ReplayError>)
    ensures r.Ok? <==> Admissible(Elems(values), None, cutoff, target) && NoTeamOverlap(Elems(values))
    ensures r.Ok? ==> IsReplayOf(m, values, r.value)
  {
    var complete := CanonicalAuthoritativeResults(values, None, cutoff, target);
    if complete.Err? { return Err(complete.error); }
    CanonicalKeepsElems(values);
    AdmittedIsReplayable(complete.value, cutoff, target);
    r := ReplayTeamRatingResults(m, complete.value, cutoff);
    if r.Ok? { SameReplay(m, complete.value, values, r.value); }
  }

  method RebuildState(math: RealMath, seed: Seed, appliedResults: seq<AuthoritativeResult>, cutoff: int,
                      target: Option<int>) returns (r: Result<Rebuilt, ReplayError>)
    ensures r.Ok? <==> Acceptable(math, seed, appliedResults, cutoff, target)
    ensures r.Ok? ==> r.value.applied == Sort(ResultBefore, appliedResults)
    ensures r.Ok? ==> IsReplayOf(Model(math, seed.config), seed.manifest + appliedResults, r.value.replay)
  {
    var frozen := VerifySeed(math, seed);
    if !frozen { return Err(SeedReplayDisagrees); }
    var applied := CanonicalAuthoritativeResults(appliedResults, Some(seed.asOf), cutoff, target);
    if applied.Err? { return Err(applied.error); }
    CanonicalKeepsElems(appliedResults);
    UnionOfElems(seed.manifest, applied.value);
    UnionOfElems(seed.manifest, appliedResults);
    var replayed := ReplayAdmitted(Model(math, seed.config), seed.manifest + applied.value, cutoff, target);
    if replayed.Err? { return Err(replayed.error); }
    SameReplay(Model(math, seed.config), seed.manifest + applied.value, seed.manifest + appliedResults, replayed.value);
    r := Ok(Rebuilt(applied.value, replayed.value));
  }

  lemma UnionOfElems(a: seq<AuthoritativeResult>, b: seq<AuthoritativeResult>)
    ensures Elems(a + b) == Elems(a) + Elems(b)
  {
  }

  /* ---------- what the rebuilt states are ---------- */

  /**
   * Two accepted rebuilds over the same results, however divided into manifest and applied results,
   * in any order and with repeats, give the same replay order and the same states.
   */
  lemma RebuildIgnoresTheSplit(math: RealMath, seed: Seed, applied: seq<AuthoritativeResult>, cutoff: int,
                               target: Option<int>, out: Replayed,
                               seed': Seed, applied': seq<AuthoritativeResult>, cutoff': int,
                               target': Option<int>, out': Replayed)
    requires Acceptable(math, seed, applied, cutoff, target) && Acceptable(math, seed', applied', cutoff', target')
    requires seed.config == seed'.config
    requires Elems(seed.manifest) + Elems(applied) == Elems(seed'.manifest) + Elems(applied')
    requires IsReplayOf(Model(math, seed.config), seed.manifest + applied, out)
    requires IsReplayOf(Model(math, seed'.config), seed'.manifest + applied', out')
    ensures out == out'
  {
    UnionOfElems(seed.manifest, applied);
    UnionOfElems(seed'.manifest, applied');
    ReplayDependsOnResultsOnly(Model(math, seed.config), seed.manifest + applied, out, seed'.manifest + applied', out');
  }

  /** No result is counted twice, and every applied result became usable after all of the manifest. */
  lemma ManifestAndAppliedAreApart(math: RealMath, seed: Seed, applied: seq<AuthoritativeResult>, cutoff: int,
                                   target: Option<int>)
    requires Acceptable(math, seed, applied, cutoff, target)
    ensures forall s, a | s in seed.manifest && a in applied ::
              s.row.usableAt.value < a.row.usableAt.value && s.row.matchId != a.row.matchId
  {
    forall s, a | s in seed.manifest && a in applied
      ensures s.row.usableAt.value < a.row.usableAt.value && s.row.matchId != a.row.matchId
    {
      OneIsApart(Elems(seed.manifest), Elems(applied), seed, cutoff, target, s, a);
    }
  }

  lemma OneIsApart(manifest: set<AuthoritativeResult>, applied: set<AuthoritativeResult>, seed: Seed, cutoff: int,
                   target: Option<int>, s: AuthoritativeResult, a: AuthoritativeResult)
    requires Admissible(manifest, None, seed.trainingCutoff, None)
             && Admissible(applied, Some(seed.asOf), cutoff, target)
    requires Consistent(manifest + applied) && seed.trainingCutoff <= seed.asOf && s in manifest && a in applied
    ensures s.row.usableAt.value < a.row.usableAt.value && s.row.matchId != a.row.matchId
  {
    assert OwnFault(s, None, seed.trainingCutoff, None) == None;
    assert OwnFault(a, Some(seed.asOf), cutoff, target) == None;
    assert s in manifest + applied && a in manifest + applied;
  }

  /** The rebuild gives the states that the training replay of the same rows gives. */
  lemma RebuildEqualsTrainingReplay(m: Model, values: seq<AuthoritativeResult>, out: Replayed, cutoff: int,
                                    corpus: Result<seq<RatingMapInput>, RatingError>)
    requires Replayable(Elems(values), cutoff) && IsReplayOf(m, values, out)
    requires IsCorpusOf(Elems(Rows(values)), cutoff, corpus)
    ensures corpus == Ok(Rows(out.order))
    ensures CorpusStates(m, corpus).Ok? && Represents(out.states, CorpusStates(m, corpus).value)
  {
    SortedElems(values);
    SameRows(values, out.order);
    var rows := Elems(Rows(values));
    RowsOfResults(values, cutoff);
    RowsStayListed(out.order);
    assert IsListing(RowBefore, rows, Rows(out.order));
    RowOrderIsTotal(rows);
    ListingUnique(RowBefore, rows, Rows(out.order), corpus.value);
  }

  lemma RowsOfResults(values: seq<AuthoritativeResult>, cutoff: int)
    requires Replayable(Elems(values), cutoff)
    ensures ConsistentRows(Elems(Rows(values))) && EligibleRows(Elems(Rows(values)), cutoff) == Elems(Rows(values))
  {
    forall row | row in Elems(Rows(values)) ensures exists v :: v in Elems(values) && v.row == row {
      var k :| 0 <= k < |values| && Rows(values)[k] == row;
      assert values[k] in Elems(values);
    }
  }

  lemma RowsStayListed(ordered: seq<AuthoritativeResult>)
    requires SortedBy(ReplayBefore, ordered)
    ensures SortedBy(RowBefore, Rows(ordered))
  {
    forall i, j | 0 <= i < j < |ordered| ensures RowBefore(Rows(ordered)[i], Rows(ordered)[j]) {
      assert ReplayBefore(ordered[i], ordered[j]);
    }
  }

  /** Each team's applied maps start after that team's maps in the seed. */
  ghost predicate AppliedLater(seed: Seed, applied: seq<AuthoritativeResult>) {
    forall s, a | s in seed.manifest && a in applied && s.row.SharesTeam(a.row) :: s.row.startedAt < a.row.startedAt
  }

  /** Then the rebuild is the same as carrying on from the seed's frozen states. */
  lemma RebuildContinuesSeedStates(math: RealMath, seed: Seed, applied: seq<AuthoritativeResult>, cutoff: int,
                                   target: Option<int>, out: Replayed)
    requires Acceptable(math, seed, applied, cutoff, target) && AppliedLater(seed, applied)
    requires IsReplayOf(Model(math, seed.config), seed.manifest + applied, out)
    ensures NoConflict(seed.replay.states)
    ensures var continued := Fold(Model(math, seed.config), Index(seed.replay.states),
                                  Rows(Sort(ReplayBefore, applied)));
            continued.Ok? && Represents(out.states, continued.value)
  {
    var m := Model(math, seed.config);
    var first, second := seed.replay.order, Sort(ReplayBefore, applied);
    SeedOrderThenApplied(math, seed, applied, cutoff, target, out);
    ReplaySucceedsIffChronological(m, first);
    RepresentsIndex(seed.replay.states, Fold(m, map[], Rows(first)).value);
    FoldAppend(m, map[], Rows(first), Rows(second));
  }

  lemma SeedOrderThenApplied(math: RealMath, seed: Seed, applied: seq<AuthoritativeResult>, cutoff: int,
                             target: Option<int>, out: Replayed)
    requires Acceptable(math, seed, applied, cutoff, target) && AppliedLater(seed, applied)
    requires IsReplayOf(Model(math, seed.config), seed.manifest + applied, out)
    ensures Fold(Model(math, seed.config), map[], Rows(seed.replay.order) + Rows(Sort(ReplayBefore, applied)))
         == Fold(Model(math, seed.config), map[], Rows(out.order))
  {
    var all := seed.manifest + applied;
    UnionOfElems(seed.manifest, applied);
    SortedIsChronological(seed.manifest);
    SortedIsChronological(applied) by { PartOfWhole(applied, all); }
    SortedIsChronological(all);
    SameOrderPerTeam(Model(math, seed.config), seed, applied, seed.replay.order, Sort(ReplayBefore, applied),
                     out.order);
  }

  lemma PartOfWhole(part: seq<AuthoritativeResult>, whole: seq<AuthoritativeResult>)
    requires Elems(part) <= Elems(whole) && Consistent(Elems(whole)) && NoTeamOverlap(Elems(whole))
    ensures Consistent(Elems(part)) && NoTeamOverlap(Elems(part))
  {
  }

  lemma SameOrderPerTeam(m: Model, seed: Seed, applied: seq<AuthoritativeResult>, first: seq<AuthoritativeResult>,
                         second: seq<AuthoritativeResult>, order: seq<AuthoritativeResult>)
    requires AppliedLater(seed, applied)
    requires IsListing(ReplayBefore, Elems(seed.manifest), first) && IsListing(ReplayBefore, Elems(applied), second)
    requires IsListing(ReplayBefore, Elems(seed.manifest + applied), order)
    requires ChronologicalPerTeam(Rows(first)) && ChronologicalPerTeam(Rows(second))
             && ChronologicalPerTeam(Rows(order))
    ensures Fold(m, map[], Rows(first) + Rows(second)) == Fold(m, map[], Rows(order))
  {
    SameMembers(seed, applied, first, second, order);
    ConcatenationChronological(seed, applied, first, second);
    SameRows(first + second, order);
    assert Rows(first + second) == Rows(first) + Rows(second);
    TieBreaksCannotChangeRatings(m, map[], Rows(first + second), Rows(order));
  }

  lemma SameMembers(seed: Seed, applied: seq<AuthoritativeResult>, first: seq<AuthoritativeResult>,
                    second: seq<AuthoritativeResult>, order: seq<AuthoritativeResult>)
    requires IsListing(ReplayBefore, Elems(seed.manifest), first) && IsListing(ReplayBefore, Elems(applied), second)
    requires IsListing(ReplayBefore, Elems(seed.manifest + applied), order)
    ensures (forall v | v in first :: v in seed.manifest) && (forall v | v in second :: v in applied)
    ensures forall v :: v in first + second <==> v in order
  {
    assert forall v :: v in Elems(seed.manifest + applied) <==> v in seed.manifest || v in applied;
    assert forall v :: v in Elems(seed.manifest) <==> v in seed.manifest;
    assert forall v :: v in Elems(applied) <==> v in applied;
  }

  lemma SortedElems(values: seq<AuthoritativeResult>)
    requires Consistent(Elems(values))
    ensures IsListing(ReplayBefore, Elems(values), Sort(ReplayBefore, values))
  {
    OrdersAreTotal(Elems(values));
    SortLists(ReplayBefore, values);
  }

  lemma SortedIsChronological(values: seq<AuthoritativeResult>)
    requires Consistent(Elems(values)) && NoTeamOverlap(Elems(values))
    ensures IsListing(ReplayBefore, Elems(values), Sort(ReplayBefore, values))
    ensures ChronologicalPerTeam(Rows(Sort(ReplayBefore, values)))
  {
    SortedElems(values);
    var ordered := Sort(ReplayBefore, values);
    ChronologicalIffNoOverlap(Elems(values), ordered);
    var rows := Rows(ordered);
    forall i, j | 0 <= i < j < |rows| && rows[i].SharesTeam(rows[j]) ensures rows[i].startedAt < rows[j].startedAt {
      assert ordered[i].row.completedAt <= ordered[j].row.startedAt;
    }
  }

  lemma ConcatenationChronological(seed: Seed, applied: seq<AuthoritativeResult>, first: seq<AuthoritativeResult>,
                                   second: seq<AuthoritativeResult>)
    requires AppliedLater(seed, applied)
    requires (forall v | v in first :: v in seed.manifest) && forall v | v in second :: v in applied
    requires ChronologicalPerTeam(Rows(first)) && ChronologicalPerTeam(Rows(second))
    ensures ChronologicalPerTeam(Rows(first + second))
  {
    var rows := Rows(first + second);
    forall i, j | 0 <= i < j < |rows| && rows[i].SharesTeam(rows[j]) ensures rows[i].startedAt < rows[j].startedAt {
      if j < |first| {
        assert rows[i] == Rows(first)[i] && rows[j] == Rows(first)[j];
      } else if i >= |first| {
        assert rows[i] == Rows(second)[i - |first|] && rows[j] == Rows(second)[j - |first|];
      } else {
        assert first[i] in seed.manifest && second[j - |first|] in applied;
      }
    }
  }

  lemma SameRows(a: seq<AuthoritativeResult>, b: seq<AuthoritativeResult>)
    requires forall v :: v in a <==> v in b
    ensures Elems(Rows(a)) == Elems(Rows(b))
  {
    forall row | row in Rows(a) ensures row in Rows(b) {
      var k :| 0 <= k < |a| && Rows(a)[k] == row;
      assert a[k] in b;
      var j :| 0 <= j < |b| && b[j] == a[k];
      assert Rows(b)[j] == row;
    }
    forall row | row in Rows(b) ensures row in Rows(a) {
      var k :| 0 <= k < |b| && Rows(b)[k] == row;
      assert b[k] in a;
      var j :| 0 <= j < |a| && a[j] == b[k];
      assert Rows(a)[j] == row;
    }
  }
}
