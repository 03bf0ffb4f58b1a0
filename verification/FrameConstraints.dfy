/** What the audits of a frame look at, and the constraints that its tables keep on every run. */
module FrameConstraints {
  import opened Wrappers
  import opened Relocations
  import opened FrameAudit
  import opened FrameRegistry
  import opened FrameRuns

  /* ---------- the audits ---------- */

  /**
   * The row is of this frame and its content, numbered by its place, under its own digest, and starts
   * where the row before ended, or at the first path.
   */
  ghost predicate RowFollows(ids: Digests, a: Artifact, rows: seq<Relocation>, i: nat)
    requires i < |rows|
  {
    var move := rows[i].move;
    && rows[i].id == ids.move(move) && move.frameRef == a.frameRef && move.sequence == i + 1
    && move.content == a.content && move.bytes == a.bytes
    && move.oldPath == if i == 0 then a.path else rows[i - 1].move.newPath
  }

  lemma LinkedIffEachFollows(ids: Digests, a: Artifact, rows: seq<Relocation>)
    ensures Linked(ids, a, rows) <==> forall i | 0 <= i < |rows| :: RowFollows(ids, a, rows, i)
  {
    forall i | 0 <= i < |rows|
      ensures Fits(ids, a, rows[i], i + 1, PathAfter(a, rows[..i])) <==> RowFollows(ids, a, rows, i)
    {
      if i > 0 { assert rows[..i] != [] && rows[..i][|rows[..i]| - 1] == rows[i - 1]; }
    }
  }

  /** The path of a frame is the end of its rows, and there is one exactly when every row follows. */
  lemma PathIsTheEndOfTheRows(ids: Digests, t: Tables, f: string)
    ensures Effective(ids, t, f).Ok? <==>
              f in t.artifacts && forall i | 0 <= i < |RowsOf(t, f)| :: RowFollows(ids, t.artifacts[f], RowsOf(t, f), i)
    ensures Effective(ids, t, f).Ok? ==>
              var rows := RowsOf(t, f);
              Effective(ids, t, f).value == if rows == [] then t.artifacts[f].path else rows[|rows| - 1].move.newPath
  {
    if f in t.artifacts {
      WalkIffLinked(ids, t.artifacts[f], RowsOf(t, f));
      LinkedIffEachFollows(ids, t.artifacts[f], RowsOf(t, f));
    }
  }

  /** A frame counts as retired exactly when its retirement, under its own digest, names it and its path. */
  lemma RetiredIffNamed(ids: Digests, t: Tables, f: string)
    ensures Retired(ids, t, f) == Ok(false) <==> f !in t.retirements
    ensures Retired(ids, t, f) == Ok(true) <==>
              f in t.retirements && Effective(ids, t, f).Ok?
              && var r, a := t.retirements[f], t.artifacts[f];
                 r.id == ids.farewell(r.farewell) && r.farewell.content == a.content && r.farewell.bytes == a.bytes
                 && Effective(ids, t, f) == Ok(r.farewell.path)
  {
  }

  /** The number is the greatest of the rows, or zero without rows. */
  ghost predicate IsGreatest(rows: seq<Relocation>, number: int) {
    && (forall row | row in rows :: row.move.sequence <= number)
    && (if rows == [] then number == 0 else exists row :: row in rows && row.move.sequence == number)
  }

  lemma GreatestOfOneMore(rows: seq<Relocation>, number: int, last: Relocation)
    requires IsGreatest(rows, number)
    ensures IsGreatest(rows + [last], if rows == [] || number < last.move.sequence then last.move.sequence else number)
  {
    assert last in rows + [last] && forall row :: row in rows + [last] <==> row in rows || row == last;
  }

  /** The next number of a frame is counted from the greatest one, whatever its rows are. */
  lemma {:induction false} GreatestNumber(rows: seq<Relocation>)
    ensures IsGreatest(rows, MaxSequence(rows))
  {
    if rows != [] {
      var init := rows[..|rows| - 1];
      GreatestNumber(init);
      GreatestOfOneMore(init, MaxSequence(init), rows[|rows| - 1]);
      assert rows == init + [rows[|rows| - 1]];
    }
  }

  /* ---------- the constraints ---------- */

  /** No two relocations share their id. */
  ghost predicate UniqueIds(t: Tables) {
    forall f, g, i, j | 0 <= i < |RowsOf(t, f)| && 0 <= j < |RowsOf(t, g)|
                        && RowsOf(t, f)[i].id == RowsOf(t, g)[j].id :: f == g && i == j
  }

  /** Every relocation leads somewhere else. */
  ghost predicate RealMoves(t: Tables) {
    forall f, i | 0 <= i < |RowsOf(t, f)| :: RowsOf(t, f)[i].move.oldPath != RowsOf(t, f)[i].move.newPath
  }

  ghost predicate RelocationsConstrained(t: Tables) {
    UniqueIds(t) && RealMoves(t)
  }

  ghost predicate RetirementsConstrained(t: Tables) {
    forall f, g | f in t.retirements && g in t.retirements && t.retirements[f].id == t.retirements[g].id :: f == g
  }

  ghost predicate Constrained(t: Tables) {
    RelocationsConstrained(t) && RetirementsConstrained(t)
  }

  lemma NewIdIsUnique(t: Tables, row: Relocation)
    requires Insertable(t, row)
    ensures forall f, i | 0 <= i < |RowsOf(t, f)| :: RowsOf(t, f)[i].id != row.id
  {
    forall f, i | 0 <= i < |RowsOf(t, f)| ensures RowsOf(t, f)[i].id != row.id {
      assert RowsOf(t, f)[i] in t.relocations[f];
    }
  }

  /** The tables have one more row of this frame. */
  ghost predicate Appended(t: Tables, t': Tables, f: string, row: Relocation) {
    RowsOf(t', f) == RowsOf(t, f) + [row] && forall g | g != f :: RowsOf(t', g) == RowsOf(t, g)
  }

  lemma RowsAfterAppending(t: Tables, t': Tables, f: string, row: Relocation, g: string, i: nat)
    requires Appended(t, t', f, row) && i < |RowsOf(t', g)|
    ensures if g == f && i == |RowsOf(t, f)| then RowsOf(t', g)[i] == row
            else i < |RowsOf(t, g)| && RowsOf(t', g)[i] == RowsOf(t, g)[i]
  {
  }

  lemma IdsAfterAppending(t: Tables, t': Tables, f: string, row: Relocation, g: string, i: nat, h: string, j: nat)
    requires UniqueIds(t) && Insertable(t, row) && Appended(t, t', f, row)
    requires i < |RowsOf(t', g)| && j < |RowsOf(t', h)| && RowsOf(t', g)[i].id == RowsOf(t', h)[j].id
    ensures g == h && i == j
  {
    RowsAfterAppending(t, t', f, row, g, i);
    RowsAfterAppending(t, t', f, row, h, j);
    NewIdIsUnique(t, row);
  }

  lemma AppendedRow(t: Tables, t': Tables, f: string, row: Relocation)
    requires RelocationsConstrained(t) && Insertable(t, row) && Appended(t, t', f, row)
    ensures RelocationsConstrained(t')
  {
    forall g, h, i, j | 0 <= i < |RowsOf(t', g)| && 0 <= j < |RowsOf(t', h)|
                        && RowsOf(t', g)[i].id == RowsOf(t', h)[j].id
      ensures g == h && i == j
    {
      IdsAfterAppending(t, t', f, row, g, i, h, j);
    }
    forall g, i | 0 <= i < |RowsOf(t', g)| ensures RowsOf(t', g)[i].move.oldPath != RowsOf(t', g)[i].move.newPath {
      RowsAfterAppending(t, t', f, row, g, i);
    }
  }

  lemma MoveKeepsConstraints(ids: Digests, t: Tables, p: Planned, note: Note)
    requires Chained(ids, t) && PlanFits(t, p) && CommitMove(ids, t, p, note).Ok? && RelocationsConstrained(t)
    ensures RelocationsConstrained(CommitMove(ids, t, p, note).value)
  {
    AcceptedMoveIsNext(ids, t, p, note);
    AppendedRow(t, CommitMove(ids, t, p, note).value, p.frameRef, RowOf(ids, p, note));
  }

  lemma {:induction false} MovesKeepConstraints(ids: Digests, t: Tables, plan: seq<Planned>, note: Note)
    requires Chained(ids, t) && (forall p | p in plan :: PlanFits(t, p)) && CommitMoves(ids, t, plan, note).Ok?
    requires RelocationsConstrained(t)
    ensures RelocationsConstrained(CommitMoves(ids, t, plan, note).value)
  {
    if plan != [] {
      var init, p := plan[..|plan| - 1], plan[|plan| - 1];
      MovesKeepConstraints(ids, t, init, note);
      MovesKeepChains(ids, t, init, note);
      var t' := CommitMoves(ids, t, init, note).value;
      PlanFitsLater(t, t', p);
      MoveKeepsConstraints(ids, t', p, note);
    }
  }

  lemma RetiringKeepsConstraints(ids: Digests, t: Tables, w: Farewell, files: Files)
    requires CommitFarewell(ids, t, w, files).Ok? && Constrained(t)
    ensures Constrained(CommitFarewell(ids, t, w, files).value)
  {
    var t' := CommitFarewell(ids, t, w, files).value;
    assert t' == t.(retirements := t'.retirements);
    SameRelocations(t, t');
    OneMoreRetirement(t, w.frameRef, t'.retirements[w.frameRef]);
  }

  lemma SameRelocations(t: Tables, t': Tables)
    requires t'.relocations == t.relocations && RelocationsConstrained(t)
    ensures RelocationsConstrained(t')
  {
    assert forall f :: RowsOf(t', f) == RowsOf(t, f);
  }

  lemma OneMoreRetirement(t: Tables, f: string, r: Retirement)
    requires RetirementsConstrained(t) && forall g | g in t.retirements :: t.retirements[g].id != r.id
    ensures RetirementsConstrained(t.(retirements := t.retirements[f := r]))
  {
  }

  lemma StepKeepsConstraints(ids: Digests, w: World, s: Step)
    requires Kept(ids, w) && Constrained(w.tables)
    ensures Constrained(Do(ids, w, s).tables)
  {
    match s
    case Register(a) => SameRelocations(w.tables, WithArtifact(w.tables, a));
    case ReadForRelocation(_, _) =>
    case Relocate(plan, note) =>
      if plan < |w.plans| && CommitMoves(ids, w.tables, w.plans[plan], note).Ok? {
        assert w.plans[plan] in w.plans;
        MovesKeepConstraints(ids, w.tables, w.plans[plan], note);
        MovesKeepChains(ids, w.tables, w.plans[plan], note);
      }
    case ReadForRetirement(_, _, _) =>
    case Retire(farewell, files) =>
      if farewell < |w.farewells| && CommitFarewell(ids, w.tables, w.farewells[farewell], files).Ok? {
        RetiringKeepsConstraints(ids, w.tables, w.farewells[farewell], files);
      }
  }

  /**
   * Whatever the digests are and however the steps interleave: ids of relocations and of retirements are
   * never shared, and no relocation leads to the path it starts from.
   */
  lemma {:induction false} ConstraintsHoldOnEveryRun(ids: Digests, w: World, steps: seq<Step>)
    requires Kept(ids, w) && Constrained(w.tables)
    ensures Constrained(Run(ids, w, steps).tables)
  {
    if steps != [] {
      var init := steps[..|steps| - 1];
      ChainsHoldOnEveryRun(ids, w, init);
      ConstraintsHoldOnEveryRun(ids, w, init);
      StepKeepsConstraints(ids, Run(ids, w, init), steps[|steps| - 1]);
    }
  }
}
