/** Relocating raw source artifacts: what a call does, when it succeeds, and what holds on every run. */
module RawRegistry {
  import opened Wrappers
  import opened Relocations
  import opened RawAudit

  /** What the file system says: paths under the roots, existing files, and files that are an artifact's. */
  datatype RawFiles = RawFiles(
    destinations: string -> bool,
    incoming: string -> bool,
    isFile: string -> bool,
    verifies: (string, RawArtifact) -> bool)

  /* ---------- planning ---------- */

  /** The artifact exists, the paths are acceptable, and the file is the artifact's if it is to move. */
  predicate Movable(t: RawTables, item: Replacement, files: RawFiles) {
    && item.key in t.artifacts
    && files.destinations(item.destination) && files.incoming(item.incoming) && files.isFile(item.incoming)
    && (item.destination != t.artifacts[item.key].path ==> files.verifies(item.incoming, t.artifacts[item.key]))
  }

  predicate Plannable(t: RawTables, items: seq<Replacement>, files: RawFiles) {
    && (forall i | 0 <= i < |items| :: Movable(t, items[i], files))
    && (forall i, j | 0 <= i < j < |items| :: items[i].destination != items[j].destination)
  }

  /** One entry for each artifact that is to move, in order. */
  function PlanOf(t: RawTables, items: seq<Replacement>): seq<RawPlanned> {
    if items == [] then []
    else
      var item, before := items[|items| - 1], PlanOf(t, items[..|items| - 1]);
      if item.key in t.artifacts && t.artifacts[item.key].path != item.destination
      then before + [RawPlanned(t.artifacts[item.key], item.destination, item.incoming)]
      else before
  }

  lemma PlannableOneMore(t: RawTables, items: seq<Replacement>, i: nat, files: RawFiles)
    requires i < |items|
    ensures Plannable(t, items[..i + 1], files) <==>
              Plannable(t, items[..i], files) && Movable(t, items[i], files)
              && forall j | 0 <= j < i :: items[j].destination != items[i].destination
    ensures Plannable(t, items, files) ==> Plannable(t, items[..i + 1], files)
  {
    assert items[..i + 1] == items[..i] + [items[i]];
  }

  method PlanRelocations(t: RawTables, items: seq<Replacement>, files: RawFiles)
    returns (r: Result<seq<RawPlanned>, RawFault>)
    ensures r.Ok? <==> Plannable(t, items, files)
    ensures r.Ok? ==> r.value == PlanOf(t, items)
  {
    var planned: seq<RawPlanned>, destinations: set<string> := [], {};
    for i := 0 to |items|
      invariant Plannable(t, items[..i], files) && planned == PlanOf(t, items[..i])
      invariant forall d :: d in destinations <==> exists j :: 0 <= j < i && items[j].destination == d
    {
      var item := items[i];
      assert items[..i + 1][..i] == items[..i];
      PlannableOneMore(t, items, i, files);
      if item.key !in t.artifacts { return Err(Missing); }
      if !files.destinations(item.destination) { return Err(PathRefused); }
      if !(files.incoming(item.incoming) && files.isFile(item.incoming)) { return Err(PathRefused); }
      if item.destination in destinations { return Err(DestinationCollision); }
      destinations := destinations + {item.destination};
      if item.destination != t.artifacts[item.key].path {
        if !files.verifies(item.incoming, t.artifacts[item.key]) { return Err(FileRefused); }
        planned := planned + [RawPlanned(t.artifacts[item.key], item.destination, item.incoming)];
      }
    }
    assert items[..|items|] == items;
    r := Ok(planned);
  }

  /* ---------- the registry ---------- */

  class Registry {
    const digest: Digest
    var tables: RawTables

    constructor (digest: Digest)
      ensures this.digest == digest && tables == RawTables(map[], map[])
    {
      this.digest := digest;
      tables := RawTables(map[], map[]);
    }

    /**
     * Records a received artifact. Its file was just verified or not, and the archive may have had to
     * create the file; an existing row must say the same, have its file, and not have lost it before.
     */
    method RecordArtifact(a: RawArtifact, created: bool, files: RawFiles) returns (r: Result<bool, RawFault>)
      modifies this
      ensures tables == if r == Ok(true) then WithArtifact(old(tables), a) else old(tables)
      ensures r == Ok(true) <==> files.verifies(a.path, a) && Recordable(old(tables), a)
      ensures r == Ok(false) <==> files.verifies(a.path, a) && !created
                                  && a.artifactId in old(tables).artifacts && old(tables).artifacts[a.artifactId] == a
      ensures r == Err(Mismatch) <==> files.verifies(a.path, a) && a.artifactId in old(tables).artifacts
                                      && (created || old(tables).artifacts[a.artifactId] != a)
    {
      if !files.verifies(a.path, a) { return Err(FileRefused); }
      if a.artifactId !in tables.artifacts {
        if !Recordable(tables, a) { return Err(ConstraintViolated); }
        tables := tables.(artifacts := tables.artifacts[a.artifactId := a]);
        return Ok(true);
      }
      var existing := tables.artifacts[a.artifactId];
      if existing != a || created { return Err(Mismatch); }
      r := if files.verifies(existing.path, existing) then Ok(false) else Err(FileRefused);
    }

    /** The transaction: every planned relocation is recorded and applied, or none. */
    method CommitRelocations(plan: seq<RawPlanned>, note: Note, verifies: (string, RawArtifact) -> bool)
      returns (r: Result<nat, RawFault>)
      modifies this
      ensures r.Ok? <==> CommitMoves(digest, verifies, old(tables), plan, note).Ok?
      ensures tables == if r.Ok? then CommitMoves(digest, verifies, old(tables), plan, note).value else old(tables)
      ensures r.Ok? ==> r.value == |plan|
    {
      var t := tables;
      for i := 0 to |plan|
        invariant tables == old(tables)
        invariant CommitMoves(digest, verifies, tables, plan[..i], note) == Ok(t)
      {
        assert plan[..i + 1][..i] == plan[..i];
        var moved := CommitMove(digest, verifies, t, plan[i], note);
        if moved.Err? {
          FailureStands(digest, verifies, tables, plan, note, i + 1);
          return Err(moved.error);
        }
        t := moved.value;
      }
      assert plan[..|plan|] == plan;
      tables := t;
      r := Ok(|plan|);
    }

    /** A whole call with nobody in between; the files may change during it. */
    method RelocateArtifacts(items: seq<Replacement>, before: RawFiles, during: RawFiles, note: Note)
      returns (r: Result<nat, RawFault>)
      requires SortedMapping(items)
      modifies this
      ensures r.Ok? <==> GoodNote(note) && Plannable(old(tables), items, before)
                         && CommitMoves(digest, during.verifies, old(tables), PlanOf(old(tables), items), note).Ok?
      ensures tables == if r.Ok?
                        then CommitMoves(digest, during.verifies, old(tables), PlanOf(old(tables), items), note).value
                        else old(tables)
    {
      if !GoodNote(note) { return Err(InvalidArguments); }
      var plan := PlanRelocations(tables, items, before);
      if plan.Err? { return Err(plan.error); }
      r := CommitRelocations(plan.value, note, during.verifies);
    }
  }

  lemma {:induction false} FailureStands(digest: Digest, verifies: (string, RawArtifact) -> bool, t: RawTables,
                                         plan: seq<RawPlanned>, note: Note, n: nat)
    requires n <= |plan| && CommitMoves(digest, verifies, t, plan[..n], note).Err?
    ensures CommitMoves(digest, verifies, t, plan, note).Err?
  {
    if n == |plan| {
      assert plan[..n] == plan;
    } else {
      assert plan[..|plan| - 1][..n] == plan[..n];
      FailureStands(digest, verifies, t, plan[..|plan| - 1], note, n);
    }
  }

  /* ---------- every run ---------- */

  /** The tables, and the plans that workers have made so far and may still commit. */
  datatype RawWorld = RawWorld(tables: RawTables, plans: seq<seq<RawPlanned>>)

  datatype RawStep =
    | Record(a: RawArtifact)
    | Plan(items: seq<Replacement>, files: RawFiles)
    | Commit(plan: nat, verifies: (string, RawArtifact) -> bool, note: Note)

  function Do(digest: Digest, w: RawWorld, s: RawStep): RawWorld {
    match s
    case Record(a) => w.(tables := WithArtifact(w.tables, a))
    case Plan(items, files) =>
      if Plannable(w.tables, items, files) then w.(plans := w.plans + [PlanOf(w.tables, items)]) else w
    case Commit(plan, verifies, note) =>
      if plan < |w.plans| && CommitMoves(digest, verifies, w.tables, w.plans[plan], note).Ok?
      then w.(tables := CommitMoves(digest, verifies, w.tables, w.plans[plan], note).value) else w
  }

  function Run(digest: Digest, w: RawWorld, steps: seq<RawStep>): RawWorld {
    if steps == [] then w else Do(digest, Run(digest, w, steps[..|steps| - 1]), steps[|steps| - 1])
  }

  lemma StepKeepsAudits(digest: Digest, w: RawWorld, s: RawStep)
    requires Audited(digest, w.tables) && DistinctPaths(w.tables)
    ensures var t' := Do(digest, w, s).tables; Audited(digest, t') && DistinctPaths(t') && Continues(t', w.tables)
  {
    SameRowsContinue(w.tables, w.tables);
    match s
    case Record(a) => RecordingKeepsAudits(digest, w.tables, a);
    case Plan(items, files) =>
    case Commit(plan, verifies, note) =>
      if plan < |w.plans| && CommitMoves(digest, verifies, w.tables, w.plans[plan], note).Ok? {
        MovesKeepAudits(digest, verifies, w.tables, w.plans[plan], note);
      }
  }

  /**
   * However workers interleave and however old the plans they commit: every artifact's rows, replayed
   * from its first path, lead to its stored path; from any state on, the rows added since lead from
   * the stored path then to the stored path now; and nothing but paths ever changes.
   */
  lemma {:induction false} StoredPathIsTheReplay(digest: Digest, w: RawWorld, steps: seq<RawStep>)
    requires Audited(digest, w.tables) && DistinctPaths(w.tables)
    ensures var t' := Run(digest, w, steps).tables; Audited(digest, t') && DistinctPaths(t') && Continues(t', w.tables)
  {
    if steps == [] {
      SameRowsContinue(w.tables, w.tables);
    } else {
      var before := Run(digest, w, steps[..|steps| - 1]);
      StoredPathIsTheReplay(digest, w, steps[..|steps| - 1]);
      StepKeepsAudits(digest, before, steps[|steps| - 1]);
      ContinuesOnward(w.tables, before.tables, Run(digest, w, steps).tables);
    }
  }

  /** So from the moment an artifact is recorded, all its rows lead from the path it was recorded with. */
  lemma ReplayFromTheRecordedPath(digest: Digest, w: RawWorld, a: RawArtifact, steps: seq<RawStep>)
    requires Audited(digest, w.tables) && DistinctPaths(w.tables) && Recordable(w.tables, a)
    ensures var t' := Run(digest, Do(digest, w, Record(a)), steps).tables;
            a.artifactId in t'.artifacts
            && Replay(a.path, RowsOf(t', a.artifactId)) == Some(t'.artifacts[a.artifactId].path)
            && t'.artifacts[a.artifactId].(path := a.path) == a
  {
    var w' := Do(digest, w, Record(a));
    StepKeepsAudits(digest, w, Record(a));
    StoredPathIsTheReplay(digest, w', steps);
    var t' := Run(digest, w', steps).tables;
    assert RowsOf(w'.tables, a.artifactId) == [];
    assert RowsOf(t', a.artifactId)[0..] == RowsOf(t', a.artifactId);
  }

  /* ---------- when a transaction succeeds ---------- */

  /** The plan says how things are, moves each artifact once, to a new path, and no two to the same. */
  ghost predicate UpToDate(t: RawTables, plan: seq<RawPlanned>) {
    && (forall p | p in plan ::
        p.authority.artifactId in t.artifacts && t.artifacts[p.authority.artifactId] == p.authority
                                && p.destination != p.authority.path)
    && (forall i, j | 0 <= i < j < |plan| ::
          plan[i].authority.artifactId != plan[j].authority.artifactId && plan[i].destination != plan[j].destination)
  }

  /** The destination of the entry is held by an artifact that has not moved away before it. */
  ghost predicate Blocked(t: RawTables, plan: seq<RawPlanned>, i: nat)
    requires i < |plan|
  {
    exists id :: id in t.artifacts && id != plan[i].authority.artifactId && t.artifacts[id].path == plan[i].destination
                 && forall j | 0 <= j < i :: plan[j].authority.artifactId != id
  }

  ghost predicate InjectiveDigest(digest: Digest) {
    forall m, n :: digest(m) == digest(n) ==> m == n
  }

  /** After the plan, its artifacts are at their destinations and all others where they were. */
  ghost predicate AppliedTo(t: RawTables, t': RawTables, plan: seq<RawPlanned>) {
    && t'.artifacts.Keys == t.artifacts.Keys
    && (forall p | p in plan :: p.authority.artifactId in t'.artifacts
                                && t'.artifacts[p.authority.artifactId] == p.authority.(path := p.destination))
    && (forall id | id in t.artifacts && (forall p | p in plan :: p.authority.artifactId != id) ::
        t'.artifacts[id] == t.artifacts[id])
  }

  lemma UpToDateBefore(t: RawTables, plan: seq<RawPlanned>)
    requires plan != [] && UpToDate(t, plan)
    ensures UpToDate(t, plan[..|plan| - 1])
    ensures forall q | q in plan[..|plan| - 1] ::
              q.authority.artifactId != plan[|plan| - 1].authority.artifactId
                  && q.destination != plan[|plan| - 1].destination
  {
    var init := plan[..|plan| - 1];
    forall q | q in init
      ensures q in plan && q.authority.artifactId != plan[|plan| - 1].authority.artifactId
              && q.destination != plan[|plan| - 1].destination
    {
      var i :| 0 <= i < |init| && init[i] == q;
      assert plan[i] == q;
    }
  }

  lemma {:induction false} CommittedIsApplied(digest: Digest, verifies: (string, RawArtifact) -> bool, t: RawTables,
                                              plan: seq<RawPlanned>, note: Note)
    requires UpToDate(t, plan) && CommitMoves(digest, verifies, t, plan, note).Ok?
    ensures AppliedTo(t, CommitMoves(digest, verifies, t, plan, note).value, plan)
  {
    if plan != [] {
      var init := plan[..|plan| - 1];
      UpToDateBefore(t, plan);
      CommittedIsApplied(digest, verifies, t, init, note);
      var t' := CommitMoves(digest, verifies, t, init, note).value;
      MoveIsApplied(digest, verifies, t', plan[|plan| - 1], note);
      AppliedOneMore(t, t', CommitMove(digest, verifies, t', plan[|plan| - 1], note).value, init, plan[|plan| - 1]);
      assert plan == init + [plan[|plan| - 1]];
    }
  }

  lemma MoveIsApplied(digest: Digest, verifies: (string, RawArtifact) -> bool, t: RawTables, p: RawPlanned, note: Note)
    requires CommitMove(digest, verifies, t, p, note).Ok?
    ensures p.authority.artifactId in t.artifacts
    ensures CommitMove(digest, verifies, t, p, note).value.artifacts
            == t.artifacts[p.authority.artifactId := p.authority.(path := p.destination)]
  {
  }

  lemma AppliedOneMore(t: RawTables, t': RawTables, t'': RawTables, init: seq<RawPlanned>, p: RawPlanned)
    requires AppliedTo(t, t', init) && p.authority.artifactId in t'.artifacts
    requires t''.artifacts == t'.artifacts[p.authority.artifactId := p.authority.(path := p.destination)]
    requires forall q | q in init :: q.authority.artifactId != p.authority.artifactId
    ensures AppliedTo(t, t'', init + [p])
  {
    assert p in init + [p] && forall q | q in init :: q in init + [p];
  }

  lemma NextIdIsNew(digest: Digest, t: RawTables, p: RawPlanned, note: Note)
    requires Audited(digest, t) && InjectiveDigest(digest)
    requires p.authority.artifactId in t.artifacts && t.artifacts[p.authority.artifactId] == p.authority
    ensures NewId(t, digest(MoveNow(t, p, note)))
  {
    NumbersEndAtLength(digest, p.authority, RowsOf(t, p.authority.artifactId));
    forall id, r | id in t.relocations && r in t.relocations[id] ensures r.id != digest(MoveNow(t, p, note)) {
      var i :| 0 <= i < |t.relocations[id]| && t.relocations[id][i] == r;
      assert Faithful(digest, t.artifacts[id], RowsOf(t, id)) && RowsOf(t, id)[i] == r;
      assert r.move.before.artifactId == id && r.move.sequence == i + 1;
    }
  }

  /** The last entry succeeds exactly when it is not blocked. */
  lemma LastSucceedsIff(digest: Digest, verifies: (string, RawArtifact) -> bool, t: RawTables, t': RawTables,
                        plan: seq<RawPlanned>, note: Note)
    requires plan != [] && UpToDate(t, plan) && InjectiveDigest(digest) && Audited(digest, t')
    requires AppliedTo(t, t', plan[..|plan| - 1])
    requires verifies(plan[|plan| - 1].incoming, plan[|plan| - 1].authority)
    ensures CommitMove(digest, verifies, t', plan[|plan| - 1], note).Ok? <==> !Blocked(t, plan, |plan| - 1)
  {
    var init, p := plan[..|plan| - 1], plan[|plan| - 1];
    UpToDateBefore(t, plan);
    assert p in plan;
    NextIdIsNew(digest, t', p, note);
    FreeIff(t, t', plan);
  }

  /**
   * Before the last entry an artifact is at its own path if no earlier entry moved it, and else not where
   * the last one goes.
   */
  lemma WhereBeforeTheLast(t: RawTables, t': RawTables, plan: seq<RawPlanned>, id: string)
    requires plan != [] && UpToDate(t, plan) && AppliedTo(t, t', plan[..|plan| - 1]) && id in t.artifacts
    ensures id in t'.artifacts
    ensures (forall j | 0 <= j < |plan| - 1 :: plan[j].authority.artifactId != id)
            ==> t'.artifacts[id] == t.artifacts[id]
    ensures !(forall j | 0 <= j < |plan| - 1 :: plan[j].authority.artifactId != id) ==>
              t'.artifacts[id].path != plan[|plan| - 1].destination
  {
    var init := plan[..|plan| - 1];
    if j :| 0 <= j < |plan| - 1 && plan[j].authority.artifactId == id {
      assert init[j] in init && plan[j].destination != plan[|plan| - 1].destination;
    } else {
      forall q | q in init ensures q.authority.artifactId != id {
        var j :| 0 <= j < |init| && init[j] == q;
        assert plan[j] == q;
      }
    }
  }

  lemma FreeIff(t: RawTables, t': RawTables, plan: seq<RawPlanned>)
    requires plan != [] && UpToDate(t, plan) && AppliedTo(t, t', plan[..|plan| - 1])
    ensures Free(t', plan[|plan| - 1].authority.artifactId, plan[|plan| - 1].destination)
            <==> !Blocked(t, plan, |plan| - 1)
  {
    var p := plan[|plan| - 1];
    forall id | id in t.artifacts
      ensures id in t'.artifacts
      ensures t'.artifacts[id].path == p.destination <==>
                t.artifacts[id].path == p.destination
                && forall j | 0 <= j < |plan| - 1 :: plan[j].authority.artifactId != id
    {
      WhereBeforeTheLast(t, t', plan, id);
    }
  }

  ghost predicate NoneBlocked(t: RawTables, plan: seq<RawPlanned>) {
    forall i | 0 <= i < |plan| :: !Blocked(t, plan, i)
  }

  lemma NoneBlockedByTheLast(t: RawTables, plan: seq<RawPlanned>)
    requires plan != []
    ensures NoneBlocked(t, plan) <==> NoneBlocked(t, plan[..|plan| - 1]) && !Blocked(t, plan, |plan| - 1)
  {
    var init, last := plan[..|plan| - 1], |plan| - 1;
    forall i: nat | i < |init| ensures Blocked(t, init, i) <==> Blocked(t, plan, i) { SameBlocks(t, plan, i); }
    if NoneBlocked(t, plan) { assert !Blocked(t, plan, last); }
    if NoneBlocked(t, init) && !Blocked(t, plan, last) {
      forall i: nat | i < |plan| ensures !Blocked(t, plan, i) {
        if i < |init| { assert !Blocked(t, init, i); }
      }
    }
  }

  /**
   * With nobody in between and verified files, a transaction succeeds exactly when no entry's path is
   * still held by another artifact when its turn comes: the order of the ids decides.
   */
  lemma {:induction false} CommitSucceedsIff(digest: Digest, verifies: (string, RawArtifact) -> bool, t: RawTables,
                                             plan: seq<RawPlanned>, note: Note)
    requires Audited(digest, t) && DistinctPaths(t) && UpToDate(t, plan) && InjectiveDigest(digest)
    requires forall p | p in plan :: verifies(p.incoming, p.authority)
    ensures CommitMoves(digest, verifies, t, plan, note).Ok? <==> NoneBlocked(t, plan)
  {
    if plan != [] {
      var init := plan[..|plan| - 1];
      UpToDateBefore(t, plan);
      CommitSucceedsIff(digest, verifies, t, init, note);
      NoneBlockedByTheLast(t, plan);
      if CommitMoves(digest, verifies, t, init, note).Ok? { LastAfterInit(digest, verifies, t, plan, note); }
    }
  }

  lemma LastAfterInit(digest: Digest, verifies: (string, RawArtifact) -> bool, t: RawTables, plan: seq<RawPlanned>,
                      note: Note)
    requires Audited(digest, t) && DistinctPaths(t) && plan != [] && UpToDate(t, plan) && InjectiveDigest(digest)
    requires verifies(plan[|plan| - 1].incoming, plan[|plan| - 1].authority)
    requires CommitMoves(digest, verifies, t, plan[..|plan| - 1], note).Ok?
    ensures CommitMoves(digest, verifies, t, plan, note).Ok? <==> !Blocked(t, plan, |plan| - 1)
  {
    var init := plan[..|plan| - 1];
    var t' := CommitMoves(digest, verifies, t, init, note).value;
    UpToDateBefore(t, plan);
    MovesKeepAudits(digest, verifies, t, init, note);
    CommittedIsApplied(digest, verifies, t, init, note);
    LastSucceedsIff(digest, verifies, t, t', plan, note);
  }

  /**
   * What a call plans is up to date, so its transaction, with nobody in between, fails only on a path
   * that is still held.
   */
  lemma PlanSucceedsIff(digest: Digest, t: RawTables, items: seq<Replacement>, files: RawFiles, note: Note)
    requires Audited(digest, t) && DistinctPaths(t) && InjectiveDigest(digest) && SortedMapping(items)
             && Plannable(t, items, files)
    ensures CommitMoves(digest, files.verifies, t, PlanOf(t, items), note).Ok? <==> NoneBlocked(t, PlanOf(t, items))
  {
    PlansAreUpToDate(t, items, files);
    CommitSucceedsIff(digest, files.verifies, t, PlanOf(t, items), note);
  }

  /** Each row is filed under its own id. */
  ghost predicate Keyed(t: RawTables) {
    forall id | id in t.artifacts :: t.artifacts[id].artifactId == id
  }

  /** The entry is of one of the items. */
  ghost predicate EntryOf(t: RawTables, items: seq<Replacement>, p: RawPlanned) {
    exists i :: 0 <= i < |items| && items[i].key in t.artifacts
        && t.artifacts[items[i].key].path != items[i].destination
                && p == RawPlanned(t.artifacts[items[i].key], items[i].destination, items[i].incoming)
  }

  lemma {:induction false} PlansAreUpToDate(t: RawTables, items: seq<Replacement>, files: RawFiles)
    requires Keyed(t) && SortedMapping(items) && Plannable(t, items, files)
    ensures UpToDate(t, PlanOf(t, items))
    ensures forall p | p in PlanOf(t, items) :: EntryOf(t, items, p) && files.verifies(p.incoming, p.authority)
  {
    if items != [] {
      var init := items[..|items| - 1];
      PlannableOneMore(t, items, |items| - 1, files);
      assert items[..|items| - 1 + 1] == items;
      NewestItem(items);
      PlansAreUpToDate(t, init, files);
      forall q | q in PlanOf(t, init)
        ensures EntryOf(t, items, q) && q.authority.artifactId != items[|items| - 1].key
                && q.destination != items[|items| - 1].destination
      {
        EarlierEntry(t, items, q);
      }
      PlanOneMore(t, items, PlanOf(t, init), files);
    }
  }

  lemma PlanOneMore(t: RawTables, items: seq<Replacement>, before: seq<RawPlanned>, files: RawFiles)
    requires items != [] && Keyed(t) && Movable(t, items[|items| - 1], files)
    requires before == PlanOf(t, items[..|items| - 1]) && UpToDate(t, before)
    requires forall q | q in before :: EntryOf(t, items, q) && files.verifies(q.incoming, q.authority)
    requires forall q | q in before :: q.authority.artifactId != items[|items| - 1].key
                                       && q.destination != items[|items| - 1].destination
    ensures UpToDate(t, PlanOf(t, items))
    ensures forall p | p in PlanOf(t, items) :: EntryOf(t, items, p) && files.verifies(p.incoming, p.authority)
  {
    var item := items[|items| - 1];
    var p := RawPlanned(t.artifacts[item.key], item.destination, item.incoming);
    if p.authority.path != p.destination {
      assert EntryOf(t, items, p);
      UpToDateOneMore(t, before, p);
    }
  }

  lemma EarlierEntry(t: RawTables, items: seq<Replacement>, q: RawPlanned)
    requires items != [] && SortedMapping(items) && Keyed(t) && EntryOf(t, items[..|items| - 1], q)
    requires forall i, j | 0 <= i < j < |items| :: items[i].destination != items[j].destination
    ensures EntryOf(t, items, q) && q.authority.artifactId != items[|items| - 1].key
            && q.destination != items[|items| - 1].destination
  {
    var init := items[..|items| - 1];
    NewestItem(items);
    var i :| 0 <= i < |init| && init[i].key in t.artifacts && t.artifacts[init[i].key].path != init[i].destination
             && q == RawPlanned(t.artifacts[init[i].key], init[i].destination, init[i].incoming);
    assert items[i] == init[i];
  }

  lemma UpToDateOneMore(t: RawTables, plan: seq<RawPlanned>, p: RawPlanned)
    requires UpToDate(t, plan) && p.destination != p.authority.path
    requires p.authority.artifactId in t.artifacts && t.artifacts[p.authority.artifactId] == p.authority
    requires forall q | q in plan :: q.authority.artifactId != p.authority.artifactId && q.destination != p.destination
    ensures UpToDate(t, plan + [p])
  {
  }

  lemma SameBlocks(t: RawTables, plan: seq<RawPlanned>, i: nat)
    requires i < |plan| - 1
    ensures Blocked(t, plan[..|plan| - 1], i) <==> Blocked(t, plan, i)
  {
    assert forall j | 0 <= j <= i :: plan[..|plan| - 1][j] == plan[j];
  }

  /**
   * Nothing moves to the path of an artifact that moves later in the same call: whatever else is
   * relocated with them, two artifacts cannot exchange their paths.
   */
  lemma PathsCannotBeExchanged(digest: Digest, verifies: (string, RawArtifact) -> bool, t: RawTables,
                               plan: seq<RawPlanned>, i: nat, j: nat, note: Note)
    requires Audited(digest, t) && DistinctPaths(t) && UpToDate(t, plan) && InjectiveDigest(digest)
    requires forall p | p in plan :: verifies(p.incoming, p.authority)
    requires i < j < |plan| && plan[i].destination == plan[j].authority.path
    ensures CommitMoves(digest, verifies, t, plan, note).Err?
  {
    assert plan[j] in plan && plan[i].authority.artifactId != plan[j].authority.artifactId;
    assert Blocked(t, plan, i) by {
      var id := plan[j].authority.artifactId;
      assert forall k | 0 <= k < i :: plan[k].authority.artifactId != id;
    }
    CommitSucceedsIff(digest, verifies, t, plan, note);
  }
}
