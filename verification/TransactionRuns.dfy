/** Whole runs of transaction programs: when data become durable, and when a connection is held. */
module TransactionRuns {
  import opened Wrappers
  import opened TransactionSemantics

  /* ---------- every moment of a run ---------- */

  /** The views after each statement, block entry and block exit. */
  function Trace(p: Program, v: View): seq<View> {
    match p
    case Skip => [v]
    case Write(_, _) => [Exec(p, v).view]
    case RejectedWrite => [Exec(p, v).view]
    case Raise => [v]
    case Then(a, b) => Trace(a, v) + if Exec(a, v).normal then Trace(b, Exec(a, v).view) else []
    case Catch(a, h) => Trace(a, v) + if Exec(a, v).normal then [] else Trace(h, Exec(a, v).view)
    case Block(b) => if Enterable(v) then [Enter(v)] + Trace(b, Enter(v)) + [Exec(p, v).view] else [v]
  }

  /** Only leaving the outermost block normally, its transaction alive, can make anything durable. */
  predicate DurableStep(before: View, after: View) {
    before.durable == after.durable || (before.depth == 1 && after.depth == 0 && after.pending.None?
                                        && before.pending == Some(Alive(after.durable)))
  }

  predicate DurableSteps(views: seq<View>) {
    forall i | 0 <= i < |views| - 1 :: DurableStep(views[i], views[i + 1])
  }

  lemma DurableStepsJoin(a: seq<View>, b: seq<View>)
    requires a != [] && DurableSteps(a) && DurableSteps([a[|a| - 1]] + b)
    ensures DurableSteps(a + b)
  {
    var joined, tail := a + b, [a[|a| - 1]] + b;
    forall i | 0 <= i < |joined| - 1 ensures DurableStep(joined[i], joined[i + 1]) {
      if i >= |a| - 1 {
        assert joined[i] == tail[i - (|a| - 1)] && joined[i + 1] == tail[i + 1 - (|a| - 1)];
      }
    }
  }

  lemma DurableStepsPrepend(v: View, views: seq<View>)
    requires views != [] && DurableStep(v, views[0]) && DurableSteps(views)
    ensures DurableSteps([v] + views)
  {
    var all := [v] + views;
    forall i | 0 <= i < |all| - 1 ensures DurableStep(all[i], all[i + 1]) {
      if i > 0 { assert all[i] == views[i - 1] && all[i + 1] == views[i]; }
    }
  }

  lemma {:induction false} TraceEndsInExec(p: Program, v: View)
    ensures Trace(p, v) != [] && Trace(p, v)[|Trace(p, v)| - 1] == Exec(p, v).view
  {
    match p
    case Skip =>
    case Write(_, _) =>
    case RejectedWrite =>
    case Raise =>
    case Then(a, b) =>
      TraceEndsInExec(a, v);
      if Exec(a, v).normal { TraceEndsInExec(b, Exec(a, v).view); }
    case Catch(a, h) =>
      TraceEndsInExec(a, v);
      if !Exec(a, v).normal { TraceEndsInExec(h, Exec(a, v).view); }
    case Block(b) =>
  }

  /** In every run, of any program from any view, data become durable only at a normal outermost exit. */
  lemma {:induction false} DurableOnlyAtOutermostExit(p: Program, v: View)
    requires Possible(v)
    ensures DurableSteps([v] + Trace(p, v))
  {
    match p
    case Skip =>
    case Write(_, _) =>
    case RejectedWrite =>
    case Raise =>
    case Then(a, b) =>
      DurableOnlyAtOutermostExit(a, v);
      DepthIsRestored(a, v);
      if Exec(a, v).normal {
        DurableOnlyAtOutermostExit(b, Exec(a, v).view);
        DurableInSequence(v, Trace(a, v), Exec(a, v).view, Trace(b, Exec(a, v).view)) by { TraceEndsInExec(a, v); }
      } else {
        assert Trace(p, v) == Trace(a, v);
      }
    case Catch(a, h) =>
      DurableOnlyAtOutermostExit(a, v);
      DepthIsRestored(a, v);
      if Exec(a, v).normal {
        assert Trace(p, v) == Trace(a, v);
      } else {
        DurableOnlyAtOutermostExit(h, Exec(a, v).view);
        DurableInSequence(v, Trace(a, v), Exec(a, v).view, Trace(h, Exec(a, v).view)) by { TraceEndsInExec(a, v); }
      }
    case Block(b) =>
      if Enterable(v) {
        DurableOnlyAtOutermostExit(b, Enter(v));
        TraceEndsInExec(b, Enter(v));
        InsideABlock(b, Enter(v));
        DurableAroundABlock(v, Enter(v), Trace(b, Enter(v)), Exec(b, Enter(v)).view, Exec(p, v).view);
      }
  }

  lemma DurableInSequence(v: View, a: seq<View>, middle: View, b: seq<View>)
    requires a != [] && a[|a| - 1] == middle && DurableSteps([v] + a) && DurableSteps([middle] + b)
    ensures DurableSteps([v] + (a + b))
  {
    DurableStepsJoin([v] + a, b);
    assert [v] + a + b == [v] + (a + b);
  }

  lemma DurableAroundABlock(v: View, inside: View, body: seq<View>, end: View, after: View)
    requires body != [] && body[|body| - 1] == end && DurableSteps([inside] + body)
    requires DurableStep(v, inside) && DurableStep(end, after)
    ensures DurableSteps([v] + ([inside] + body + [after]))
  {
    DurableStepsJoin([inside] + body, [after]);
    DurableStepsPrepend(v, [inside] + body + [after]);
  }

  /* ---------- when a connection is held ---------- */

  predicate HeldExactlyInBlocks(views: seq<View>) {
    forall i | 0 <= i < |views| :: views[i].pending.Some? <==> views[i].depth > 0
  }

  lemma {:induction false} HeldInside(p: Program, v: View)
    requires v.depth > 0 && v.pending.Some?
    ensures HeldExactlyInBlocks(Trace(p, v))
  {
    match p
    case Skip =>
    case Write(_, _) =>
    case RejectedWrite =>
    case Raise =>
    case Then(a, b) =>
      HeldInside(a, v);
      InsideABlock(a, v);
      if Exec(a, v).normal { HeldInside(b, Exec(a, v).view); }
    case Catch(a, h) =>
      HeldInside(a, v);
      InsideABlock(a, v);
      if !Exec(a, v).normal { HeldInside(h, Exec(a, v).view); }
    case Block(b) =>
      if Enterable(v) {
        HeldInside(b, Enter(v));
        HeldAroundABlock(b, v);
      }
  }

  lemma HeldAroundABlock(b: Program, v: View)
    requires v.depth > 0 && v.pending.Some? && Enterable(v) && HeldExactlyInBlocks(Trace(b, Enter(v)))
    ensures HeldExactlyInBlocks([Enter(v)] + Trace(b, Enter(v)) + [Exec(Block(b), v).view])
  {
    InsideABlock(Block(b), v);
    HeldInSequence([Enter(v)], Trace(b, Enter(v)));
    HeldInSequence([Enter(v)] + Trace(b, Enter(v)), [Exec(Block(b), v).view]);
  }

  /** A program that writes only inside blocks leaves an idle session idle, and ends as `Outside` says. */
  lemma {:induction false} IdleStaysIdle(p: Program, s: Store)
    requires !WritesOutside(p)
    ensures var d := Exec(p, View(s, None, 0)); d == Done(View(d.view.durable, None, 0), Outside(p))
  {
    match p
    case Skip =>
    case RejectedWrite =>
    case Raise =>
    case Then(a, b) =>
      IdleStaysIdle(a, s);
      if Outside(a) { IdleStaysIdle(b, Exec(a, View(s, None, 0)).view.durable); }
    case Catch(a, h) =>
      IdleStaysIdle(a, s);
      if !Outside(a) { IdleStaysIdle(h, Exec(a, View(s, None, 0)).view.durable); }
    case Block(b) =>
      BlockIsAllOrNothing(b, View(s, None, 0));
      InsideABlock(b, Enter(View(s, None, 0)));
  }

  /**
   * Starting idle, a connection is held exactly while a block is open if and only if the program
   * executes no write outside every block.
   */
  lemma {:induction false} HeldExactlyInBlocksIff(p: Program, s: Store)
    ensures HeldExactlyInBlocks(Trace(p, View(s, None, 0))) <==> !WritesOutside(p)
  {
    var v := View(s, None, 0);
    match p
    case Skip =>
    case Write(_, _) => assert Trace(p, v)[0].pending.Some?;
    case RejectedWrite =>
    case Raise =>
    case Then(a, b) =>
      HeldExactlyInBlocksIff(a, s);
      HeldInSequence(Trace(a, v), if Exec(a, v).normal then Trace(b, Exec(a, v).view) else []);
      if !WritesOutside(a) {
        IdleStaysIdle(a, s);
        if Outside(a) { HeldExactlyInBlocksIff(b, Exec(a, v).view.durable); }
      }
    case Catch(a, h) =>
      HeldExactlyInBlocksIff(a, s);
      HeldInSequence(Trace(a, v), if Exec(a, v).normal then [] else Trace(h, Exec(a, v).view));
      if !WritesOutside(a) {
        IdleStaysIdle(a, s);
        if !Outside(a) { HeldExactlyInBlocksIff(h, Exec(a, v).view.durable); }
      }
    case Block(b) =>
      HeldInside(b, Enter(v));
      BlockIsAllOrNothing(b, v);
      InsideABlock(b, Enter(v));
  }

  lemma HeldInSequence(first: seq<View>, second: seq<View>)
    ensures HeldExactlyInBlocks(first + second) <==> HeldExactlyInBlocks(first) && HeldExactlyInBlocks(second)
  {
    var both := first + second;
    if HeldExactlyInBlocks(both) {
      forall i | 0 <= i < |first| ensures first[i].pending.Some? <==> first[i].depth > 0 { assert both[i] == first[i]; }
      forall i | 0 <= i < |second| ensures second[i].pending.Some? <==> second[i].depth > 0 {
        assert both[|first| + i] == second[i];
      }
    }
  }

  /**
   * After a write outside every block nothing that a later block does is durable when it ends: the
   * implicit connection still holds it, and exactly its plain meaning if the block lets rejections out.
   */
  lemma WriteOutsideDefersLaterBlocks(key: string, value: string, inner: Program, s: Store)
    ensures var p := Then(Write(key, value), Block(inner));
            var d := Exec(p, View(s, None, 0));
            && d.view.durable == s && d.view.pending.Some? && d.view.depth == 0
            && (LetsRejectionsOut(inner) ==> d.view.pending == Some(Alive(Snapshot(p, s))))
  {
    var v := AfterWrite(View(s, None, 0), key, value).view;
    BlockIsAllOrNothing(inner, v);
    InsideABlock(inner, Enter(v));
    if LetsRejectionsOut(inner) { BlockRefinesSnapshot(inner, Enter(v), s[key := value]); }
  }

  /* ---------- a rejection outside every block ---------- */

  /**
   * A statement that is rejected outside every block ends what the program before it did: only what it
   * made durable is left, and no connection is held.
   */
  lemma RejectionKeepsOnlyTheDurable(p: Program, s: Store)
    requires Exec(p, View(s, None, 0)).normal
    ensures Exec(Then(p, RejectedWrite), View(s, None, 0))
            == Done(View(Exec(p, View(s, None, 0)).view.durable, None, 0), false)
  {
    DepthIsRestored(p, View(s, None, 0));
  }

  /** One write after another. */
  function Writes(pairs: seq<(string, string)>): Program {
    if pairs == [] then Skip else Then(Writes(pairs[..|pairs| - 1]), Write(pairs[|pairs| - 1].0, pairs[|pairs| - 1].1))
  }

  lemma {:induction false} WritesAreNotDurable(pairs: seq<(string, string)>, s: Store)
    ensures var d := Exec(Writes(pairs), View(s, None, 0));
            && d.normal && d.view.durable == s && d.view.depth == 0
            && (d.view.pending.Some? ==> d.view.pending.value.Alive?)
  {
    if pairs != [] { WritesAreNotDurable(pairs[..|pairs| - 1], s); }
  }

  /**
   * So writes outside every block are lost when a later one is rejected: a program that catches the
   * rejection and goes on leaves the same as if it had never written.
   */
  lemma RejectionLosesImplicitWrites(pairs: seq<(string, string)>, later: Program, s: Store)
    ensures Exec(Then(Writes(pairs), RejectedWrite), View(s, None, 0)) == Done(View(s, None, 0), false)
    ensures Exec(Then(Catch(Then(Writes(pairs), RejectedWrite), Skip), later), View(s, None, 0))
            == Exec(later, View(s, None, 0))
  {
    WritesAreNotDurable(pairs, s);
    RejectionKeepsOnlyTheDurable(Writes(pairs), s);
    var tried := Then(Writes(pairs), RejectedWrite);
    assert Exec(Catch(tried, Skip), View(s, None, 0)) == Done(View(s, None, 0), true);
  }
}
