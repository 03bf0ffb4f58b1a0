/** What recording and relocating raw artifacts does, told without the checks and plans of the registry. */
module RawMeaning {
  import opened Wrappers
  import opened Relocations
  import opened RawAudit
  import opened RawRegistry

  /* ---------- recording ---------- */

  /** No recorded artifact has this id or path, or this content from the same source. */
  predicate Unlike(t: RawTables, a: RawArtifact) {
    forall id | id in t.artifacts ::
      id != a.artifactId && t.artifacts[id].path != a.path
      && !(t.artifacts[id].source == a.source && t.artifacts[id].content == a.content)
  }

  /** An artifact is recorded exactly when no recorded one is like it; all other rows stay as they are. */
  lemma RecordedIffUnlike(digest: Digest, w: RawWorld, a: RawArtifact)
    ensures Do(digest, w, Record(a)).tables
            == if Unlike(w.tables, a) then w.tables.(artifacts := w.tables.artifacts[a.artifactId := a]) else w.tables
  {
    assert Unlike(w.tables, a) <==> Recordable(w.tables, a);
  }

  function RecordAll(artifacts: seq<RawArtifact>): (steps: seq<RawStep>)
    ensures |steps| == |artifacts|
  {
    seq(|artifacts|, i requires 0 <= i < |artifacts| => Record(artifacts[i]))
  }

  const EMPTY := RawWorld(RawTables(map[], map[]), [])

  /** The tables hold exactly these artifacts, by their ids, and no relocations. */
  ghost predicate HoldsExactly(t: RawTables, artifacts: seq<RawArtifact>) {
    && t.relocations == map[]
    && (forall a | a in artifacts :: a.artifactId in t.artifacts && t.artifacts[a.artifactId] == a)
    && (forall id | id in t.artifacts :: t.artifacts[id].artifactId == id && t.artifacts[id] in artifacts)
  }

  /** Two artifacts that can both be recorded. */
  predicate Differ(a: RawArtifact, b: RawArtifact) {
    a.artifactId != b.artifactId && a.path != b.path && (a.source != b.source || a.content != b.content)
  }

  lemma OneMoreIsRecorded(t: RawTables, artifacts: seq<RawArtifact>, a: RawArtifact)
    requires HoldsExactly(t, artifacts) && forall i | 0 <= i < |artifacts| :: Differ(artifacts[i], a)
    ensures Unlike(t, a)
    ensures HoldsExactly(t.(artifacts := t.artifacts[a.artifactId := a]), artifacts + [a])
  {
    assert forall b :: b in artifacts + [a] <==> b in artifacts || b == a;
  }

  lemma RecordOneMore(digest: Digest, artifacts: seq<RawArtifact>)
    requires artifacts != []
    ensures Run(digest, EMPTY, RecordAll(artifacts))
            == Do(digest, Run(digest, EMPTY, RecordAll(artifacts[..|artifacts| - 1])),
                  Record(artifacts[|artifacts| - 1]))
  {
    assert RecordAll(artifacts)[..|artifacts| - 1] == RecordAll(artifacts[..|artifacts| - 1]);
  }

  /** Artifacts that differ pairwise in id, in path, and in source or content are all recorded, in any order. */
  lemma {:induction false} UnlikeArtifactsAreAllRecorded(digest: Digest, artifacts: seq<RawArtifact>)
    requires forall i, j | 0 <= i < j < |artifacts| :: Differ(artifacts[i], artifacts[j])
    ensures HoldsExactly(Run(digest, EMPTY, RecordAll(artifacts)).tables, artifacts)
  {
    if artifacts != [] {
      UnlikeArtifactsAreAllRecorded(digest, artifacts[..|artifacts| - 1]);
      LastIsRecorded(digest, Run(digest, EMPTY, RecordAll(artifacts[..|artifacts| - 1])), artifacts);
      RecordOneMore(digest, artifacts);
    }
  }

  lemma LastIsRecorded(digest: Digest, w: RawWorld, artifacts: seq<RawArtifact>)
    requires artifacts != [] && forall i | 0 <= i < |artifacts| - 1 :: Differ(artifacts[i], artifacts[|artifacts| - 1])
    requires HoldsExactly(w.tables, artifacts[..|artifacts| - 1])
    ensures HoldsExactly(Do(digest, w, Record(artifacts[|artifacts| - 1])).tables, artifacts)
  {
    var init, last := artifacts[..|artifacts| - 1], artifacts[|artifacts| - 1];
    OneMoreIsRecorded(w.tables, init, last);
    RecordedIffUnlike(digest, w, last);
    assert artifacts == init + [last];
  }

  /* ---------- relocating ---------- */

  /** The plan moves the item's artifact, as it is, to its destination. */
  ghost predicate Plans(t: RawTables, plan: seq<RawPlanned>, item: Replacement) {
    && item.key in t.artifacts
    && RawPlanned(t.artifacts[item.key], item.destination, item.incoming) in plan
  }

  /** The plan has an entry for each item whose artifact is elsewhere, and no others. */
  lemma {:induction false} PlanHoldsTheItems(t: RawTables, items: seq<Replacement>)
    requires forall item | item in items :: item.key in t.artifacts
    ensures forall item | item in items && t.artifacts[item.key].path != item.destination ::
              Plans(t, PlanOf(t, items), item)
    ensures forall p | p in PlanOf(t, items) :: OfAnItem(t, items, p)
  {
    if items != [] {
      var init, last := items[..|items| - 1], items[|items| - 1];
      assert items == init + [last];
      PlanHoldsTheItems(t, init);
    }
  }

  /**
   * A relocation whose plan is unblocked, with nobody in between, leaves each item's artifact as it was
   * but for its path, which is the destination, and every other artifact as it was.
   */
  lemma RelocatingMovesToTheDestinations(digest: Digest, t: RawTables, items: seq<Replacement>, files: RawFiles,
                                         note: Note)
    requires Audited(digest, t) && DistinctPaths(t) && InjectiveDigest(digest) && SortedMapping(items)
    requires Plannable(t, items, files) && NoneBlocked(t, PlanOf(t, items))
    ensures CommitMoves(digest, files.verifies, t, PlanOf(t, items), note).Ok?
    ensures var t' := CommitMoves(digest, files.verifies, t, PlanOf(t, items), note).value;
            && t'.artifacts.Keys == t.artifacts.Keys
            && (forall item | item in items :: item.key in t.artifacts
                  && t'.artifacts[item.key] == t.artifacts[item.key].(path := item.destination))
            && (forall id | id in t.artifacts && (forall item | item in items :: item.key != id) ::
                  t'.artifacts[id] == t.artifacts[id])
  {
    var plan := PlanOf(t, items);
    PlanSucceedsIff(digest, t, items, files, note);
    PlansAreUpToDate(t, items, files);
    CommittedIsApplied(digest, files.verifies, t, plan, note);
    var t' := CommitMoves(digest, files.verifies, t, plan, note).value;
    forall item | item in items ensures item.key in t.artifacts {
      var i :| 0 <= i < |items| && items[i] == item;
      assert Movable(t, items[i], files);
    }
    PlanHoldsTheItems(t, items);
    forall item | item in items ensures t'.artifacts[item.key] == t.artifacts[item.key].(path := item.destination) {
      ItemArrives(t, t', items, plan, item);
    }
    forall id | id in t.artifacts && (forall item | item in items :: item.key != id)
      ensures t'.artifacts[id] == t.artifacts[id]
    {
      forall p | p in plan ensures p.authority.artifactId != id {
        var item :| item in items && item.key in t.artifacts && t.artifacts[item.key] == p.authority
                    && p.destination == item.destination != p.authority.path;
        assert t.artifacts[item.key].artifactId == item.key;
      }
    }
  }

  /** The entry is of one of the items, whose artifact is elsewhere. */
  ghost predicate OfAnItem(t: RawTables, items: seq<Replacement>, p: RawPlanned) {
    exists item :: item in items && item.key in t.artifacts && t.artifacts[item.key] == p.authority
                   && p.destination == item.destination != p.authority.path
  }

  lemma NoEntryAtItsPlace(t: RawTables, items: seq<Replacement>, item: Replacement, p: RawPlanned)
    requires Keyed(t) && SortedMapping(items) && item in items && item.key in t.artifacts && OfAnItem(t, items, p)
    requires t.artifacts[item.key].path == item.destination
    ensures p.authority.artifactId != item.key
  {
    var other :| other in items && other.key in t.artifacts && t.artifacts[other.key] == p.authority
                 && p.destination == other.destination != p.authority.path;
    assert p.authority.artifactId == other.key;
    if other.key == item.key { KeysAreDistinct(items, item, other); }
  }

  lemma ItemArrives(t: RawTables, t': RawTables, items: seq<Replacement>, plan: seq<RawPlanned>, item: Replacement)
    requires Keyed(t) && SortedMapping(items) && item in items && item.key in t.artifacts && AppliedTo(t, t', plan)
    requires t.artifacts[item.key].path != item.destination ==> Plans(t, plan, item)
    requires forall p | p in plan :: OfAnItem(t, items, p)
    ensures item.key in t'.artifacts
    ensures t'.artifacts[item.key] == t.artifacts[item.key].(path := item.destination)
  {
    var a := t.artifacts[item.key];
    if a.path == item.destination {
      forall p | p in plan ensures p.authority.artifactId != item.key { NoEntryAtItsPlace(t, items, item, p); }
      assert t'.artifacts[item.key] == a;
    } else {
      assert RawPlanned(a, item.destination, item.incoming) in plan;
    }
  }

  /** A call with nobody in between is one reading step and one writing step of a run. */
  lemma CallIsTwoSteps(digest: Digest, w: RawWorld, items: seq<Replacement>, before: RawFiles, during: RawFiles,
                       note: Note)
    ensures var steps := [Plan(items, before), Commit(|w.plans|, during.verifies, note)];
            var done := CommitMoves(digest, during.verifies, w.tables, PlanOf(w.tables, items), note);
            Run(digest, w, steps).tables
            == if Plannable(w.tables, items, before) && done.Ok? then done.value else w.tables
  {
    var plan, commit := Plan(items, before), Commit(|w.plans|, during.verifies, note);
    assert [plan, commit][..1] == [plan] && [plan][..0] == [];
    assert Run(digest, w, [plan]) == Do(digest, w, plan);
  }

  /** The number is the greatest of the rows, or zero without rows. */
  ghost predicate IsGreatest(rows: seq<RawRelocation>, number: int) {
    && (forall row | row in rows :: row.move.sequence <= number)
    && (if rows == [] then number == 0 else exists row :: row in rows && row.move.sequence == number)
  }

  lemma GreatestOfOneMore(rows: seq<RawRelocation>, number: int, last: RawRelocation)
    requires IsGreatest(rows, number)
    ensures IsGreatest(rows + [last], if rows == [] || number < last.move.sequence then last.move.sequence else number)
  {
    assert last in rows + [last] && forall row :: row in rows + [last] <==> row in rows || row == last;
  }

  /** The next number of an artifact is counted from the greatest one, whatever its rows are. */
  lemma {:induction false} GreatestNumber(rows: seq<RawRelocation>)
    ensures IsGreatest(rows, MaxSequence(rows))
  {
    if rows != [] {
      var init := rows[..|rows| - 1];
      GreatestNumber(init);
      GreatestOfOneMore(init, MaxSequence(init), rows[|rows| - 1]);
      assert rows == init + [rows[|rows| - 1]];
    }
  }
}
