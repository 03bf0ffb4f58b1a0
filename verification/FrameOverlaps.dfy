/**
 * Two runs in which a relocation and a retirement of one frame overlap, and leave a retirement that
 * its audit refuses, whatever the digests are.
 */
module FrameOverlaps {
  import opened Wrappers
  import opened Relocations
  import opened FrameAudit
  import opened FrameRegistry
  import opened FrameRuns

  const NOTE := Note("reason", "actor", 0)
  const ANY_FILE := Files((p: string) => true, (p: string) => true, (p: string) => true,
                          (p: string, c: string, n: int) => true)

  const ARTIFACT := Artifact("f", "c", 1, "a")
  const TO_B := Planned("f", "c", 1, "a", "b", 1)
  const AT_A := Farewell("f", "c", 1, "a", NOTE)

  /** One frame at path "a". */
  const START := Tables(map["f" := ARTIFACT], map[], map[])
  const AFTER_READING := World(START, [[TO_B]], [AT_A])

  /** The row of the frame's move to "b", and the row of its retirement at "a". */
  function MovedRows(ids: Digests): map<string, seq<Relocation>> {
    map["f" := [RowOf(ids, TO_B, NOTE)]]
  }

  function RetiredRows(ids: Digests): map<string, Retirement> {
    map["f" := Retirement(ids.farewell(AT_A), AT_A)]
  }

  /** The tables with either row, or both. */
  function After(ids: Digests, moved: bool, retired: bool): Tables {
    Tables(START.artifacts, if moved then MovedRows(ids) else map[], if retired then RetiredRows(ids) else map[])
  }

  lemma WhereItIs(ids: Digests, moved: bool, retired: bool)
    ensures Effective(ids, After(ids, moved, retired), "f") == Ok(if moved then "b" else "a")
  {
    var rows := RowsOf(After(ids, moved, retired), "f");
    if moved {
      assert rows[..|rows| - 1] == [] && Walk(ids, ARTIFACT, []) == Some("a");
      assert Fits(ids, ARTIFACT, rows[0], 1, "a");
    }
  }

  lemma BothIsRefused(ids: Digests)
    ensures Retired(ids, After(ids, true, true), "f") == Err(RetirementAuditInvalid)
  {
    WhereItIs(ids, true, true);
  }

  /** A plan to move the frame to "b" is accepted whether or not it has been retired. */
  lemma MoveToB(ids: Digests, retired: bool)
    ensures CommitMoves(ids, After(ids, false, retired), [TO_B], NOTE) == Ok(After(ids, true, retired))
  {
    var t := After(ids, false, retired);
    WhereItIs(ids, false, retired);
    assert [TO_B][..0] == [];
    assert Insertable(t, RowOf(ids, TO_B, NOTE));
    assert InsertRow([], RowOf(ids, TO_B, NOTE)) == [RowOf(ids, TO_B, NOTE)];
    assert CommitMove(ids, t, TO_B, NOTE) == Ok(After(ids, true, retired));
  }

  /** A retirement at "a" is accepted whether or not the frame has moved. */
  lemma RetireAtA(ids: Digests, moved: bool)
    ensures CommitFarewell(ids, After(ids, moved, false), AT_A, ANY_FILE) == Ok(After(ids, moved, true))
  {
    WhereItIs(ids, moved, false);
  }

  lemma PlanToB(ids: Digests, items: seq<Replacement>)
    requires items == [Replacement("f", "b", "b")]
    ensures SortedMapping(items) && Plannable(ids, START, items, ANY_FILE) && PlanOf(ids, START, items) == [TO_B]
  {
    WhereItIs(ids, false, false);
    assert items[..0] == [] && PlanOf(ids, START, []) == [];
    assert Movable(ids, START, items[0], ANY_FILE);
  }

  const BOTH_READ := [ReadForRelocation([Replacement("f", "b", "b")], ANY_FILE), ReadForRetirement("f", ANY_FILE, NOTE)]

  lemma AfterReads(ids: Digests)
    ensures Run(ids, World(START, [], []), BOTH_READ) == AFTER_READING
  {
    var w := World(START, [], []);
    PlanToB(ids, [Replacement("f", "b", "b")]);
    WhereItIs(ids, false, false);
    assert BOTH_READ[..1][..0] == [] && BOTH_READ[..2] == BOTH_READ;
    assert Run(ids, w, BOTH_READ[..1]) == World(START, [[TO_B]], []);
    assert Retirable(ids, START, "f", ANY_FILE) && FarewellOf(ids, START, "f", NOTE) == AT_A;
    assert Do(ids, World(START, [[TO_B]], []), BOTH_READ[1]) == AFTER_READING;
  }

  lemma RunTwoMore(ids: Digests, w: World, steps: seq<Step>, a: Step, b: Step)
    ensures Run(ids, w, steps + [a, b]) == Do(ids, Do(ids, Run(ids, w, steps), a), b)
  {
    assert steps + [a, b] == (steps + [a]) + [b];
    assert ((steps + [a]) + [b])[..|steps + [a]|] == steps + [a] && (steps + [a])[..|steps|] == steps;
  }

  /**
   * A frame that is retired between the two parts of a relocation moves all the same, and its audit fails
   * from then on.
   */
  lemma RetiredWhileRelocating(ids: Digests)
    ensures var t := Run(ids, World(START, [], []), BOTH_READ + [Retire(0, ANY_FILE), Relocate(0, NOTE)]).tables;
            Retired(ids, t, "f") == Err(RetirementAuditInvalid)
  {
    AfterReads(ids);
    RunTwoMore(ids, World(START, [], []), BOTH_READ, Retire(0, ANY_FILE), Relocate(0, NOTE));
    RetireAtA(ids, false);
    var retired := AFTER_READING.(tables := After(ids, false, true));
    assert Do(ids, AFTER_READING, Retire(0, ANY_FILE)) == retired;
    MoveToB(ids, true);
    assert Do(ids, retired, Relocate(0, NOTE)) == retired.(tables := After(ids, true, true));
    BothIsRefused(ids);
  }

  /**
   * A frame that is relocated between the two parts of its retirement is retired at its former path, with
   * the same end.
   */
  lemma RelocatedWhileRetiring(ids: Digests)
    ensures var t := Run(ids, World(START, [], []), BOTH_READ + [Relocate(0, NOTE), Retire(0, ANY_FILE)]).tables;
            Retired(ids, t, "f") == Err(RetirementAuditInvalid)
  {
    AfterReads(ids);
    RunTwoMore(ids, World(START, [], []), BOTH_READ, Relocate(0, NOTE), Retire(0, ANY_FILE));
    MoveToB(ids, false);
    var moved := AFTER_READING.(tables := After(ids, true, false));
    assert Do(ids, AFTER_READING, Relocate(0, NOTE)) == moved;
    RetireAtA(ids, true);
    assert Do(ids, moved, Retire(0, ANY_FILE)) == moved.(tables := After(ids, true, true));
    BothIsRefused(ids);
  }
}
