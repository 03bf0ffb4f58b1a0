/** Runs of the frame registry: what holds however the workers interleave, and what only when calls do not overlap. */
module FrameRuns {
  import opened Wrappers
  import opened Relocations
  import opened FrameAudit
  import opened FrameRegistry

  /* ---------- any interleaving ---------- */

  /** The tables, and what workers have read so far and may still write by. */
  datatype World = World(tables: Tables, plans: seq<seq<Planned>>, farewells: seq<Farewell>)

  datatype Step =
    | Register(a: Artifact)
    | ReadForRelocation(items: seq<Replacement>, files: Files)
    | Relocate(plan: nat, note: Note)
    | ReadForRetirement(frameRef: string, files: Files, note: Note)
    | Retire(farewell: nat, files: Files)

  function Do(ids: Digests, w: World, s: Step): World {
    match s
    case Register(a) => w.(tables := WithArtifact(w.tables, a))
    case ReadForRelocation(items, files) =>
      if SortedMapping(items) && Plannable(ids, w.tables, items, files)
      then w.(plans := w.plans + [PlanOf(ids, w.tables, items)]) else w
    case Relocate(plan, note) =>
      if plan < |w.plans| && CommitMoves(ids, w.tables, w.plans[plan], note).Ok?
      then w.(tables := CommitMoves(ids, w.tables, w.plans[plan], note).value) else w
    case ReadForRetirement(frameRef, files, note) =>
      if Retirable(ids, w.tables, frameRef, files)
      then w.(farewells := w.farewells + [FarewellOf(ids, w.tables, frameRef, note)]) else w
    case Retire(farewell, files) =>
      if farewell < |w.farewells| && CommitFarewell(ids, w.tables, w.farewells[farewell], files).Ok?
      then w.(tables := CommitFarewell(ids, w.tables, w.farewells[farewell], files).value) else w
  }

  function Run(ids: Digests, w: World, steps: seq<Step>): World {
    if steps == [] then w else Do(ids, Run(ids, w, steps[..|steps| - 1]), steps[|steps| - 1])
  }

  ghost predicate Kept(ids: Digests, w: World) {
    && Chained(ids, w.tables) && Distinct(w.tables)
    && (forall plan | plan in w.plans :: PlanOfMapping(plan) && forall p | p in plan :: PlanFits(w.tables, p))
  }

  lemma RegisteringKeepsChains(ids: Digests, t: Tables, a: Artifact)
    requires Chained(ids, t) && Distinct(t)
    ensures Chained(ids, WithArtifact(t, a)) && Distinct(WithArtifact(t, a)) && Extends(WithArtifact(t, a), t)
  {
    if !Conflicts(t, a) {
      StaysDistinct(t, a);
      var t' := WithArtifact(t, a);
      assert a.frameRef !in t.artifacts && RowsOf(t', a.frameRef) == [];
      forall f | f in t'.artifacts
        ensures t'.artifacts[f].frameRef == f && Linked(ids, t'.artifacts[f], RowsOf(t', f))
      {
        if f != a.frameRef { assert f in t.artifacts && RowsOf(t', f) == RowsOf(t, f); }
      }
    }
  }

  lemma StaysDistinct(t: Tables, a: Artifact)
    requires Distinct(t) && !Conflicts(t, a)
    ensures Distinct(WithArtifact(t, a))
  {
  }

  lemma {:induction false} LinkedNumbers(ids: Digests, a: Artifact, rows: seq<Relocation>)
    requires Linked(ids, a, rows)
    ensures MaxSequence(rows) == |rows|
  {
    if rows != [] {
      var init := rows[..|rows| - 1];
      assert forall i | 0 <= i < |init| :: init[..i] == rows[..i] && init[i] == rows[i];
      LinkedNumbers(ids, a, init);
      assert Fits(ids, a, rows[|rows| - 1], |rows|, PathAfter(a, rows[..|rows| - 1]));
    }
  }

  /** An entry of a plan: of one of the items, fitting the tables, for a frame that is not retired. */
  ghost predicate PlannedFrom(t: Tables, items: seq<Replacement>, p: Planned) {
    PlanFits(t, p) && p.frameRef !in t.retirements && exists i :: 0 <= i < |items| && items[i].key == p.frameRef
  }

  ghost predicate PlanFrom(t: Tables, items: seq<Replacement>, plan: seq<Planned>) {
    PlanOfMapping(plan) && forall p | p in plan :: PlannedFrom(t, items, p)
  }

  /** A plan is made of the mapping's items, numbered by what follows the chains. */
  lemma {:induction false} PlansFit(ids: Digests, t: Tables, items: seq<Replacement>, files: Files)
    requires Chained(ids, t) && SortedMapping(items) && Plannable(ids, t, items, files)
    ensures PlanFrom(t, items, PlanOf(ids, t, items))
  {
    if items != [] {
      var init, item := items[..|items| - 1], items[|items| - 1];
      PlannableOneMore(ids, t, items, |items| - 1, files);
      assert items[..|items| - 1 + 1] == items;
      NewestItem(items);
      PlansFit(ids, t, init, files);
      EntryFits(ids, t, item, files);
      var before, path := PlanOf(ids, t, init), Effective(ids, t, item.key).value;
      OldEntriesRemain(t, items, before);
      if path != item.destination { NewEntryFits(t, items, before, PlannedFor(t, item, path)); }
    }
  }

  lemma OldEntriesRemain(t: Tables, items: seq<Replacement>, before: seq<Planned>)
    requires items != [] && SortedMapping(items) && PlanFrom(t, items[..|items| - 1], before)
    ensures PlanFrom(t, items, before) && forall p | p in before :: p.frameRef != items[|items| - 1].key
  {
    forall p | p in before ensures PlannedFrom(t, items, p) && p.frameRef != items[|items| - 1].key {
      OneMoreItem(t, items, p);
    }
  }

  lemma NewEntryFits(t: Tables, items: seq<Replacement>, before: seq<Planned>, p: Planned)
    requires items != [] && PlanFrom(t, items, before) && PlanFits(t, p) && p.frameRef !in t.retirements
    requires p.frameRef == items[|items| - 1].key && forall q | q in before :: q.frameRef != p.frameRef
    ensures PlanFrom(t, items, before + [p])
  {
    assert items[|items| - 1].key == p.frameRef;
    assert PlannedFrom(t, items, p);
  }

  lemma OneMoreItem(t: Tables, items: seq<Replacement>, p: Planned)
    requires items != [] && SortedMapping(items) && PlannedFrom(t, items[..|items| - 1], p)
    ensures PlannedFrom(t, items, p) && p.frameRef != items[|items| - 1].key
  {
    NewestItem(items);
    var i :| 0 <= i < |items| - 1 && items[..|items| - 1][i].key == p.frameRef;
    assert items[i].key == p.frameRef;
  }

  lemma EntryFits(ids: Digests, t: Tables, item: Replacement, files: Files)
    requires Chained(ids, t) && Movable(ids, t, item, files)
    ensures Effective(ids, t, item.key).Ok? && item.key in t.artifacts && item.key !in t.retirements
    ensures Effective(ids, t, item.key) != Ok(item.destination) ==>
              PlanFits(t, PlannedFor(t, item, Effective(ids, t, item.key).value))
  {
    ChainsPass(ids, t, item.key);
    LinkedNumbers(ids, t.artifacts[item.key], RowsOf(t, item.key));
  }

  lemma RetiringKeepsChains(ids: Digests, t: Tables, w: Farewell, files: Files)
    requires Chained(ids, t) && Distinct(t) && CommitFarewell(ids, t, w, files).Ok?
    ensures var t' := CommitFarewell(ids, t, w, files).value; Chained(ids, t') && Distinct(t') && Extends(t', t)
  {
    var t' := CommitFarewell(ids, t, w, files).value;
    assert forall f :: RowsOf(t', f) == RowsOf(t, f);
  }

  /** What is kept of the tables is kept of the world: old plans fit whatever only extends them. */
  lemma TablesAdvance(ids: Digests, w: World, t: Tables)
    requires Kept(ids, w) && Chained(ids, t) && Distinct(t) && Extends(t, w.tables)
    ensures Kept(ids, w.(tables := t))
  {
    forall q, p | q in w.plans && p in q ensures PlanFits(t, p) { PlanFitsLater(w.tables, t, p); }
  }

  lemma OneMorePlan(ids: Digests, w: World, items: seq<Replacement>, plan: seq<Planned>)
    requires Kept(ids, w) && PlanFrom(w.tables, items, plan)
    ensures Kept(ids, w.(plans := w.plans + [plan]))
  {
  }

  lemma ExtendsItself(t: Tables)
    ensures Extends(t, t)
  {
  }

  lemma RelocationKeepsChains(ids: Digests, w: World, plan: nat, note: Note)
    requires Kept(ids, w) && plan < |w.plans| && CommitMoves(ids, w.tables, w.plans[plan], note).Ok?
    ensures var t := CommitMoves(ids, w.tables, w.plans[plan], note).value;
            Kept(ids, w.(tables := t)) && Extends(t, w.tables)
  {
    assert w.plans[plan] in w.plans;
    MovesKeepChains(ids, w.tables, w.plans[plan], note);
    TablesAdvance(ids, w, CommitMoves(ids, w.tables, w.plans[plan], note).value);
  }

  lemma RegistrationKeepsChains(ids: Digests, w: World, a: Artifact)
    requires Kept(ids, w)
    ensures Kept(ids, w.(tables := WithArtifact(w.tables, a))) && Extends(WithArtifact(w.tables, a), w.tables)
  {
    RegisteringKeepsChains(ids, w.tables, a);
    TablesAdvance(ids, w, WithArtifact(w.tables, a));
  }

  lemma ReadingKeepsChains(ids: Digests, w: World, items: seq<Replacement>, files: Files)
    requires Kept(ids, w) && SortedMapping(items) && Plannable(ids, w.tables, items, files)
    ensures Kept(ids, w.(plans := w.plans + [PlanOf(ids, w.tables, items)]))
  {
    PlansFit(ids, w.tables, items, files);
    OneMorePlan(ids, w, items, PlanOf(ids, w.tables, items));
  }

  lemma RetirementKeepsChains(ids: Digests, w: World, farewell: Farewell, files: Files)
    requires Kept(ids, w) && CommitFarewell(ids, w.tables, farewell, files).Ok?
    ensures var t := CommitFarewell(ids, w.tables, farewell, files).value;
            Kept(ids, w.(tables := t)) && Extends(t, w.tables)
  {
    RetiringKeepsChains(ids, w.tables, farewell, files);
    TablesAdvance(ids, w, CommitFarewell(ids, w.tables, farewell, files).value);
  }

  lemma StepKeepsChains(ids: Digests, w: World, s: Step)
    requires Kept(ids, w)
    ensures Kept(ids, Do(ids, w, s)) && Extends(Do(ids, w, s).tables, w.tables)
  {
    ExtendsItself(w.tables);
    match s
    case Register(a) => RegistrationKeepsChains(ids, w, a);
    case ReadForRelocation(items, files) =>
      if SortedMapping(items) && Plannable(ids, w.tables, items, files) { ReadingKeepsChains(ids, w, items, files); }
    case Relocate(plan, note) =>
      if plan < |w.plans| && CommitMoves(ids, w.tables, w.plans[plan], note).Ok? {
        RelocationKeepsChains(ids, w, plan, note);
      }
    case ReadForRetirement(frameRef, files, note) =>
    case Retire(farewell, files) =>
      if farewell < |w.farewells| && CommitFarewell(ids, w.tables, w.farewells[farewell], files).Ok? {
        RetirementKeepsChains(ids, w, w.farewells[farewell], files);
      }
  }

  /**
   * However reads and writes of any workers interleave, and however old what they write by: every
   * chain is numbered from one and linked, no identity changes and no row is lost or rewritten.
   */
  lemma {:induction false} ChainsHoldOnEveryRun(ids: Digests, w: World, steps: seq<Step>)
    requires Kept(ids, w)
    ensures Kept(ids, Run(ids, w, steps)) && Extends(Run(ids, w, steps).tables, w.tables)
  {
    if steps != [] {
      var before := Run(ids, w, steps[..|steps| - 1]);
      ChainsHoldOnEveryRun(ids, w, steps[..|steps| - 1]);
      StepKeepsChains(ids, before, steps[|steps| - 1]);
      ExtendsOnward(w.tables, before.tables, Run(ids, w, steps).tables);
    }
  }

  /** From an empty registry, the audit of relocations never fails on a registered frame. */
  lemma RelocationAuditsNeverFail(ids: Digests, steps: seq<Step>, f: string)
    ensures var t := Run(ids, World(Tables(map[], map[], map[]), [], []), steps).tables;
            f in t.artifacts ==> Effective(ids, t, f) == Ok(PathAfter(t.artifacts[f], RowsOf(t, f)))
  {
    var w := World(Tables(map[], map[], map[]), [], []);
    ChainsHoldOnEveryRun(ids, w, steps);
    var t := Run(ids, w, steps).tables;
    if f in t.artifacts { ChainsPass(ids, t, f); }
  }

  /* ---------- retirements under interleaving ---------- */

  /** A relocation, however old its plan, keeps every retirement true exactly when it moves no retired frame. */
  lemma MoveKeepsRetirementsIff(ids: Digests, t: Tables, plan: seq<Planned>, note: Note)
    requires Chained(ids, t) && RetirementsFit(ids, t) && PlanOfMapping(plan)
             && (forall p | p in plan :: PlanFits(t, p))
    requires CommitMoves(ids, t, plan, note).Ok?
    ensures RetirementsFit(ids, CommitMoves(ids, t, plan, note).value) <==>
              forall p | p in plan :: p.frameRef !in t.retirements
  {
    MovesKeepChains(ids, t, plan, note);
    MovesDoWhatIsPlanned(ids, t, plan, note);
    MovedRetirementsIff(ids, t, CommitMoves(ids, t, plan, note).value, plan, note);
  }

  lemma MovedRetirementsIff(ids: Digests, t: Tables, t': Tables, plan: seq<Planned>, note: Note)
    requires RetirementsFit(ids, t) && MovedAsPlanned(ids, t, t', plan, note)
    requires forall p | p in plan :: p.oldPath != p.newPath
    requires t'.artifacts == t.artifacts && t'.retirements == t.retirements
    ensures RetirementsFit(ids, t') <==> forall p | p in plan :: p.frameRef !in t.retirements
  {
    if p :| p in plan && p.frameRef in t.retirements {
      assert Moved(ids, t, t', p, note);
      assert PathAfter(t.artifacts[p.frameRef], RowsOf(t', p.frameRef)) == p.newPath;
      assert t.retirements[p.frameRef].farewell.path == p.oldPath;
    }
  }

  /** A retirement keeps them true exactly when its frame is still where it was read. */
  lemma RetirementKeepsRetirementsIff(ids: Digests, t: Tables, w: Farewell, files: Files)
    requires Chained(ids, t) && RetirementsFit(ids, t) && CommitFarewell(ids, t, w, files).Ok?
    ensures RetirementsFit(ids, CommitFarewell(ids, t, w, files).value) <==> Effective(ids, t, w.frameRef) == Ok(w.path)
  {
    var t' := CommitFarewell(ids, t, w, files).value;
    ChainsPass(ids, t, w.frameRef);
    assert forall f :: RowsOf(t', f) == RowsOf(t, f);
    assert w.frameRef in t'.retirements && w.frameRef in t'.artifacts;
  }

  /** What registering says, and so when: it writes only when it reports that it did. */
  lemma RegisteringOutcomes(ids: Digests, t: Tables, a: Artifact)
    requires Audited(ids, t)
    ensures Registered(ids, t, a)
            == if !Conflicts(t, a) then Ok(true)
               else if a.frameRef !in t.artifacts then Err(NotRegistered)
               else if t.artifacts[a.frameRef] != a then Err(IdentityConflict)
               else if a.frameRef in t.retirements then Err(AlreadyRetired)
               else Ok(false)
    ensures Registered(ids, t, a) != Ok(true) ==> WithArtifact(t, a) == t
  {
    if a.frameRef in t.retirements { ChainsPass(ids, t, a.frameRef); }
  }

  /** The audit of a retirement passes exactly when the retirement is true. */
  lemma RetirementAuditIff(ids: Digests, t: Tables, f: string)
    requires Chained(ids, t) && f in t.retirements
    ensures Retired(ids, t, f)
            == if RetirementFits(ids, t.artifacts[f], t.retirements[f], PathAfter(t.artifacts[f], RowsOf(t, f))) then
                 Ok(true)
               else Err(RetirementAuditInvalid)
  {
    ChainsPass(ids, t, f);
  }

  /* ---------- calls that do not overlap ---------- */

  datatype Call =
    | RegisterCall(a: Artifact)
    | RelocateCall(items: seq<Replacement>, files: Files, note: Note)
    | RetireCall(frameRef: string, before: Files, during: Files, note: Note)

  /** The tables after a call: those that the registry's methods leave. */
  function AfterCall(ids: Digests, t: Tables, c: Call): Tables {
    match c
    case RegisterCall(a) => WithArtifact(t, a)
    case RelocateCall(items, files, note) =>
      if SortedMapping(items) && GoodNote(note) && Plannable(ids, t, items, files)
         && CommitMoves(ids, t, PlanOf(ids, t, items), note).Ok?
      then CommitMoves(ids, t, PlanOf(ids, t, items), note).value else t
    case RetireCall(frameRef, before, during, note) =>
      if GoodNote(note) && Retirable(ids, t, frameRef, before)
         && CommitFarewell(ids, t, FarewellOf(ids, t, frameRef, note), during).Ok?
      then CommitFarewell(ids, t, FarewellOf(ids, t, frameRef, note), during).value else t
  }

  function AfterCalls(ids: Digests, t: Tables, calls: seq<Call>): Tables {
    if calls == [] then t else AfterCall(ids, AfterCalls(ids, t, calls[..|calls| - 1]), calls[|calls| - 1])
  }

  ghost predicate Audited(ids: Digests, t: Tables) {
    Chained(ids, t) && Distinct(t) && RetirementsFit(ids, t)
  }

  /** The relocations of the frames that `t` has retired are what they were. */
  ghost predicate RetiredAreFrozen(t: Tables, later: Tables) {
    forall f | f in t.retirements :: RowsOf(later, f) == RowsOf(t, f)
  }

  /** All audits pass on the later tables, nothing is rewritten in them, and retired frames stay where they are. */
  ghost predicate Follows(ids: Digests, t: Tables, later: Tables) {
    Audited(ids, later) && Extends(later, t) && RetiredAreFrozen(t, later)
  }

  lemma RelocateCallKeepsAudits(ids: Digests, t: Tables, items: seq<Replacement>, files: Files, note: Note)
    requires Audited(ids, t) && SortedMapping(items) && Plannable(ids, t, items, files)
    requires CommitMoves(ids, t, PlanOf(ids, t, items), note).Ok?
    ensures var t' := CommitMoves(ids, t, PlanOf(ids, t, items), note).value;
            Follows(ids, t, t')
  {
    var plan := PlanOf(ids, t, items);
    PlansFit(ids, t, items, files);
    MovesKeepChains(ids, t, plan, note);
    MoveKeepsRetirementsIff(ids, t, plan, note);
    MovesDoWhatIsPlanned(ids, t, plan, note);
  }

  lemma RetireCallKeepsAudits(ids: Digests, t: Tables, frameRef: string, before: Files, during: Files, note: Note)
    requires Audited(ids, t) && Retirable(ids, t, frameRef, before)
    requires CommitFarewell(ids, t, FarewellOf(ids, t, frameRef, note), during).Ok?
    ensures var t' := CommitFarewell(ids, t, FarewellOf(ids, t, frameRef, note), during).value;
            Follows(ids, t, t')
  {
    var w := FarewellOf(ids, t, frameRef, note);
    RetiringKeepsChains(ids, t, w, during);
    RetirementKeepsRetirementsIff(ids, t, w, during);
    assert forall f :: RowsOf(CommitFarewell(ids, t, w, during).value, f) == RowsOf(t, f);
  }

  lemma RegisterCallKeepsAudits(ids: Digests, t: Tables, a: Artifact)
    requires Audited(ids, t)
    ensures Follows(ids, t, WithArtifact(t, a))
  {
    RegisteringKeepsChains(ids, t, a);
    assert forall f :: RowsOf(WithArtifact(t, a), f) == RowsOf(t, f);
  }

  lemma UnchangedFollows(ids: Digests, t: Tables)
    requires Audited(ids, t)
    ensures Follows(ids, t, t)
  {
  }

  lemma CallKeepsAudits(ids: Digests, t: Tables, c: Call)
    requires Audited(ids, t)
    ensures Follows(ids, t, AfterCall(ids, t, c))
  {
    UnchangedFollows(ids, t);
    match c
    case RegisterCall(a) => RegisterCallKeepsAudits(ids, t, a);
    case RelocateCall(items, files, note) =>
      if SortedMapping(items) && GoodNote(note) && Plannable(ids, t, items, files)
         && CommitMoves(ids, t, PlanOf(ids, t, items), note).Ok?
      {
        RelocateCallKeepsAudits(ids, t, items, files, note);
      }
    case RetireCall(frameRef, before, during, note) =>
      if GoodNote(note) && Retirable(ids, t, frameRef, before)
         && CommitFarewell(ids, t, FarewellOf(ids, t, frameRef, note), during).Ok?
      {
        RetireCallKeepsAudits(ids, t, frameRef, before, during, note);
      }
  }

  lemma FollowsOnward(ids: Digests, a: Tables, b: Tables, c: Tables)
    requires Follows(ids, a, b) && Follows(ids, b, c)
    ensures Follows(ids, a, c)
  {
    ExtendsOnward(a, b, c);
  }

  /**
   * Any calls, one after the other: all audits keep passing, nothing is rewritten, and the path of
   * a retired frame is frozen.
   */
  lemma {:induction false} CallsKeepAudits(ids: Digests, t: Tables, calls: seq<Call>)
    requires Audited(ids, t)
    ensures Follows(ids, t, AfterCalls(ids, t, calls))
  {
    if calls == [] {
      UnchangedFollows(ids, t);
    } else {
      var before := AfterCalls(ids, t, calls[..|calls| - 1]);
      CallsKeepAudits(ids, t, calls[..|calls| - 1]);
      CallKeepsAudits(ids, before, calls[|calls| - 1]);
      FollowsOnward(ids, t, before, AfterCalls(ids, t, calls));
    }
  }

  /** So the whole registry verifies, files aside, and counts the frames that were never retired. */
  lemma RegistryVerifies(ids: Digests, calls: seq<Call>, files: Files)
    ensures var t := AfterCalls(ids, Tables(map[], map[], map[]), calls);
            && (forall f | f in t.artifacts :: FramePasses(ids, t, f, files, false))
            && Active(ids, t) == set f | f in t.artifacts && f !in t.retirements
  {
    CallsKeepAudits(ids, Tables(map[], map[], map[]), calls);
    var t := AfterCalls(ids, Tables(map[], map[], map[]), calls);
    forall f | f in t.artifacts ensures Effective(ids, t, f).Ok? && Retired(ids, t, f) == Ok(f in t.retirements) {
      ChainsPass(ids, t, f);
    }
  }

  /* ---------- a call on its own completes ---------- */

  ghost predicate InjectiveMoves(ids: Digests) {
    forall m, n :: ids.move(m) == ids.move(n) ==> m == n
  }

  lemma NextIsInsertable(ids: Digests, t: Tables, p: Planned, note: Note)
    requires Chained(ids, t) && InjectiveMoves(ids) && PlanFits(t, p) && p.sequence == |RowsOf(t, p.frameRef)| + 1
    ensures Insertable(t, RowOf(ids, p, note))
  {
    forall f, r | f in t.relocations && r in t.relocations[f]
      ensures r.id != ids.move(MoveOf(p, note)) && (f == p.frameRef ==> r.move.sequence != p.sequence)
    {
      var i :| 0 <= i < |t.relocations[f]| && t.relocations[f][i] == r;
      assert Fits(ids, t.artifacts[f], RowsOf(t, f)[i], i + 1, PathAfter(t.artifacts[f], RowsOf(t, f)[..i]));
    }
  }

  /** With nobody in between, what could be planned is written: the checks in the transaction never fail. */
  lemma {:induction false} PlannedIsWritten(ids: Digests, t: Tables, items: seq<Replacement>, files: Files, note: Note)
    requires Chained(ids, t) && InjectiveMoves(ids) && SortedMapping(items) && Plannable(ids, t, items, files)
    ensures CommitMoves(ids, t, PlanOf(ids, t, items), note).Ok?
  {
    if items != [] {
      var init, item := items[..|items| - 1], items[|items| - 1];
      PlannableOneMore(ids, t, items, |items| - 1, files);
      assert items[..|items| - 1 + 1] == items;
      PlannedIsWritten(ids, t, init, files, note);
      assert Movable(ids, t, item, files);
      var path := Effective(ids, t, item.key).value;
      if path != item.destination { LastIsWritten(ids, t, items, files, note, path); }
    }
  }

  lemma LastIsWritten(ids: Digests, t: Tables, items: seq<Replacement>, files: Files, note: Note, path: string)
    requires Chained(ids, t) && InjectiveMoves(ids) && SortedMapping(items) && Plannable(ids, t, items, files)
    requires items != [] && Effective(ids, t, items[|items| - 1].key) == Ok(path)
             && path != items[|items| - 1].destination
    requires CommitMoves(ids, t, PlanOf(ids, t, items[..|items| - 1]), note).Ok?
    ensures CommitMoves(ids, t, PlanOf(ids, t, items), note).Ok?
  {
    var init, item := items[..|items| - 1], items[|items| - 1];
    var before, p := PlanOf(ids, t, init), PlannedFor(t, item, path);
    PlansFit(ids, t, items, files);
    assert PlanOf(ids, t, items) == before + [p] && (before + [p])[..|before|] == before;
    assert p in PlanOf(ids, t, items) && forall q | q in before :: q in PlanOf(ids, t, items);
    LastIsAnother(before + [p]);
    LinkedNumbers(ids, t.artifacts[item.key], RowsOf(t, item.key));
    AnotherFrameIsWritten(ids, t, before, p, note);
  }

  /** After the rows of other frames, the next row of this one is accepted. */
  lemma AnotherFrameIsWritten(ids: Digests, t: Tables, before: seq<Planned>, p: Planned, note: Note)
    requires Chained(ids, t) && InjectiveMoves(ids) && PlanOfMapping(before)
    requires (forall q | q in before :: PlanFits(t, q) && q.frameRef != p.frameRef) && PlanFits(t, p)
    requires p.sequence == |RowsOf(t, p.frameRef)| + 1 && Effective(ids, t, p.frameRef) == Ok(p.oldPath)
    requires CommitMoves(ids, t, before, note).Ok?
    ensures CommitMove(ids, CommitMoves(ids, t, before, note).value, p, note).Ok?
  {
    var t' := CommitMoves(ids, t, before, note).value;
    MovesKeepChains(ids, t, before, note);
    MovesDoWhatIsPlanned(ids, t, before, note);
    PlanFitsLater(t, t', p);
    assert RowsOf(t', p.frameRef) == RowsOf(t, p.frameRef);
    NextIsInsertable(ids, t', p, note);
  }
}
