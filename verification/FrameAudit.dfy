/**
 * The tables of the frame registry and their audits. An artifact's row never changes: where its file
 * lives now is read from the chain of its relocations, and a retirement records where it was last.
 */
module FrameAudit {
  import opened Wrappers
  import opened Relocations

  datatype Artifact = Artifact(frameRef: string, content: string, bytes: int, path: string)

  /** What a relocation's id is the digest of. */
  datatype Move = Move(
    frameRef: string,
    content: string,
    bytes: int,
    oldPath: string,
    newPath: string,
    note: Note,
    sequence: int)

  datatype Relocation = Relocation(id: string, move: Move)

  /** What a retirement's id is the digest of. */
  datatype Farewell = Farewell(frameRef: string, content: string, bytes: int, path: string, note: Note)

  datatype Retirement = Retirement(id: string, farewell: Farewell)

  /** The digests of the canonical texts. */
  datatype Digests = Digests(move: Move -> string, farewell: Farewell -> string)

  /** Rows by frame; the relocations of a frame in the order of their sequence numbers. */
  datatype Tables = Tables(
    artifacts: map<string, Artifact>,
    relocations: map<string, seq<Relocation>>,
    retirements: map<string, Retirement>)

  datatype Fault =
    | NotRegistered | RelocationAuditInvalid | RetirementAuditInvalid | IdentityConflict | AlreadyRetired
    | InvalidArguments | PathRefused | DestinationCollision | ChangedDuringRelocation | FileRefused | ConstraintViolated

  function RowsOf(t: Tables, frameRef: string): seq<Relocation> {
    if frameRef in t.relocations then t.relocations[frameRef] else []
  }

  /* ---------- the two audits ---------- */

  /**
   * The row is the one expected next: its frame's, numbered, of the artifact's content, from the current
   * path, under its digest.
   */
  predicate Fits(ids: Digests, a: Artifact, row: Relocation, sequence: int, current: string) {
    && row.move.frameRef == a.frameRef && row.move.sequence == sequence
    && row.move.content == a.content && row.move.bytes == a.bytes
    && row.move.oldPath == current && row.id == ids.move(row.move)
  }

  /** Where the rows lead, unless one does not fit. */
  function Walk(ids: Digests, a: Artifact, rows: seq<Relocation>): Option<string> {
    if rows == [] then Some(a.path)
    else
      var last, before := rows[|rows| - 1], Walk(ids, a, rows[..|rows| - 1]);
      if before.Some? && Fits(ids, a, last, |rows|, before.value) then Some(last.move.newPath) else None
  }

  method FollowRelocations(ids: Digests, a: Artifact, rows: seq<Relocation>) returns (path: Option<string>)
    ensures path == Walk(ids, a, rows)
  {
    var current := a.path;
    for i := 0 to |rows|
      invariant Walk(ids, a, rows[..i]) == Some(current)
    {
      assert rows[..i + 1][..i] == rows[..i];
      if !Fits(ids, a, rows[i], i + 1, current) {
        BrokenStaysBroken(ids, a, rows, i + 1);
        return None;
      }
      current := rows[i].move.newPath;
    }
    assert rows[..|rows|] == rows;
    path := Some(current);
  }

  lemma {:induction false} BrokenStaysBroken(ids: Digests, a: Artifact, rows: seq<Relocation>, n: nat)
    requires n <= |rows| && Walk(ids, a, rows[..n]) == None
    ensures Walk(ids, a, rows) == None
  {
    if n == |rows| {
      assert rows[..n] == rows;
    } else {
      assert rows[..|rows| - 1][..n] == rows[..n];
      BrokenStaysBroken(ids, a, rows[..|rows| - 1], n);
    }
  }

  function PathAfter(a: Artifact, rows: seq<Relocation>): string {
    if rows == [] then a.path else rows[|rows| - 1].move.newPath
  }

  /** The rows are numbered from one, each starts where the one before ended, and all are the artifact's. */
  ghost predicate Linked(ids: Digests, a: Artifact, rows: seq<Relocation>) {
    forall i | 0 <= i < |rows| :: Fits(ids, a, rows[i], i + 1, PathAfter(a, rows[..i]))
  }

  /** Following the rows succeeds exactly when they are linked, and leads to the end of the last. */
  lemma {:induction false} WalkIffLinked(ids: Digests, a: Artifact, rows: seq<Relocation>)
    ensures Walk(ids, a, rows) == if Linked(ids, a, rows) then Some(PathAfter(a, rows)) else None
  {
    if rows != [] {
      WalkIffLinked(ids, a, rows[..|rows| - 1]);
      LinkedByTheLast(ids, a, rows);
    }
  }

  lemma LinkedByTheLast(ids: Digests, a: Artifact, rows: seq<Relocation>)
    requires rows != []
    ensures var init := rows[..|rows| - 1];
            Linked(ids, a, rows) <==> Linked(ids, a, init) && Fits(ids, a, rows[|rows| - 1], |rows|, PathAfter(a, init))
  {
    var init, last := rows[..|rows| - 1], rows[|rows| - 1];
    assert rows == init + [last];
    if Linked(ids, a, rows) { LinkedBefore(ids, a, rows); }
    if Linked(ids, a, init) && Fits(ids, a, last, |rows|, PathAfter(a, init)) { LinkedOneMore(ids, a, init, last); }
  }

  lemma LinkedBefore(ids: Digests, a: Artifact, rows: seq<Relocation>)
    requires rows != [] && Linked(ids, a, rows)
    ensures Linked(ids, a, rows[..|rows| - 1])
    ensures Fits(ids, a, rows[|rows| - 1], |rows|, PathAfter(a, rows[..|rows| - 1]))
  {
    var init := rows[..|rows| - 1];
    forall i | 0 <= i < |init| ensures Fits(ids, a, init[i], i + 1, PathAfter(a, init[..i])) {
      assert init[..i] == rows[..i] && Fits(ids, a, rows[i], i + 1, PathAfter(a, rows[..i]));
    }
  }

  /** The path of a frame, when it is registered and its relocations pass. */
  function Effective(ids: Digests, t: Tables, frameRef: string): Result<string, Fault> {
    if frameRef !in t.artifacts then Err(NotRegistered)
    else
      var path := Walk(ids, t.artifacts[frameRef], RowsOf(t, frameRef));
      if path.None? then Err(RelocationAuditInvalid) else Ok(path.value)
  }

  predicate RetirementFits(ids: Digests, a: Artifact, r: Retirement, path: string) {
    && r.id == ids.farewell(r.farewell)
    && r.farewell.content == a.content && r.farewell.bytes == a.bytes && r.farewell.path == path
  }

  /** Whether a frame is retired, when its audits pass. */
  function Retired(ids: Digests, t: Tables, frameRef: string): Result<bool, Fault> {
    if frameRef !in t.retirements then Ok(false)
    else
      match Effective(ids, t, frameRef)
      case Err(fault) => Err(fault)
      case Ok(path) =>
        if RetirementFits(ids, t.artifacts[frameRef], t.retirements[frameRef], path) then Ok(true)
        else Err(RetirementAuditInvalid)
  }

  /* ---------- registering ---------- */

  /** Inserting conflicts with a row of the same frame, content or path, and then does nothing. */
  predicate Conflicts(t: Tables, a: Artifact) {
    exists f | f in t.artifacts ::
      f == a.frameRef || t.artifacts[f].content == a.content || t.artifacts[f].path == a.path
  }

  function WithArtifact(t: Tables, a: Artifact): Tables {
    if Conflicts(t, a) then t else t.(artifacts := t.artifacts[a.frameRef := a])
  }

  /** Registering reports whether it inserted; the caller's frame must then be there, the same, and not retired. */
  function Registered(ids: Digests, t: Tables, a: Artifact): Result<bool, Fault> {
    var t' := WithArtifact(t, a);
    if a.frameRef !in t'.artifacts then Err(NotRegistered)
    else if t'.artifacts[a.frameRef] != a then Err(IdentityConflict)
    else
      match Retired(ids, t', a.frameRef)
      case Err(fault) => Err(fault)
      case Ok(retired) => if retired then Err(AlreadyRetired) else Ok(!Conflicts(t, a))
  }

  /* ---------- relocating ---------- */

  datatype Planned = Planned(frameRef: string, content: string, bytes: int, oldPath: string, newPath: string,
                             sequence: int)

  /** The greatest sequence number, or zero. */
  function MaxSequence(rows: seq<Relocation>): int {
    if rows == [] then 0
    else
      var m, last := MaxSequence(rows[..|rows| - 1]), rows[|rows| - 1].move.sequence;
      if |rows| == 1 || m < last then last else m
  }

  /** Rows stay in the order of their numbers. */
  function InsertRow(rows: seq<Relocation>, row: Relocation): seq<Relocation> {
    if rows == [] || rows[|rows| - 1].move.sequence < row.move.sequence then rows + [row]
    else InsertRow(rows[..|rows| - 1], row) + [rows[|rows| - 1]]
  }

  /** The table's constraints: a known frame, a new id, a new positive number for the frame, and a different path. */
  predicate Insertable(t: Tables, row: Relocation) {
    && row.move.frameRef in t.artifacts
    && (forall f | f in t.relocations :: forall r | r in t.relocations[f] :: r.id != row.id)
    && (forall r | r in RowsOf(t, row.move.frameRef) :: r.move.sequence != row.move.sequence)
    && row.move.sequence > 0 && row.move.oldPath != row.move.newPath
  }

  function MoveOf(p: Planned, note: Note): Move {
    Move(p.frameRef, p.content, p.bytes, p.oldPath, p.newPath, note, p.sequence)
  }

  function RowOf(ids: Digests, p: Planned, note: Note): Relocation {
    Relocation(ids.move(MoveOf(p, note)), MoveOf(p, note))
  }

  /** One planned relocation inside the transaction. That the frame is not retired is not looked at again. */
  function CommitMove(ids: Digests, t: Tables, p: Planned, note: Note): Result<Tables, Fault> {
    match Effective(ids, t, p.frameRef)
    case Err(fault) => Err(fault)
    case Ok(path) =>
      var a := t.artifacts[p.frameRef];
      if a.content != p.content || a.bytes != p.bytes || path != p.oldPath then Err(ChangedDuringRelocation)
      else if !Insertable(t, RowOf(ids, p, note)) then Err(ConstraintViolated)
      else Ok(t.(relocations := t.relocations[p.frameRef := InsertRow(RowsOf(t, p.frameRef), RowOf(ids, p, note))]))
  }

  function CommitMoves(ids: Digests, t: Tables, plan: seq<Planned>, note: Note): Result<Tables, Fault> {
    if plan == [] then Ok(t)
    else
      match CommitMoves(ids, t, plan[..|plan| - 1], note)
      case Err(fault) => Err(fault)
      case Ok(t') => CommitMove(ids, t', plan[|plan| - 1], note)
  }

  /* ---------- what every run keeps ---------- */

  /** Every frame's relocations are linked; relocations and retirements are of registered frames. */
  ghost predicate Chained(ids: Digests, t: Tables) {
    && t.relocations.Keys <= t.artifacts.Keys && t.retirements.Keys <= t.artifacts.Keys
    && (forall f | f in t.artifacts :: t.artifacts[f].frameRef == f && Linked(ids, t.artifacts[f], RowsOf(t, f)))
  }

  /** No two frames share their content or their first path. */
  ghost predicate Distinct(t: Tables) {
    forall f, g | f in t.artifacts && g in t.artifacts && f != g ::
      t.artifacts[f].content != t.artifacts[g].content && t.artifacts[f].path != t.artifacts[g].path
  }

  /** Every retirement names the path its frame has now. */
  ghost predicate RetirementsFit(ids: Digests, t: Tables) {
    forall f | f in t.retirements && f in t.artifacts ::
      RetirementFits(ids, t.artifacts[f], t.retirements[f], PathAfter(t.artifacts[f], RowsOf(t, f)))
  }

  /** Nothing is ever rewritten: `later` keeps every row of `t`, and only appends to the relocations of a frame. */
  ghost predicate Extends(later: Tables, t: Tables) {
    && (forall f | f in t.artifacts :: f in later.artifacts && later.artifacts[f] == t.artifacts[f])
    && (forall f | f in t.retirements :: f in later.retirements && later.retirements[f] == t.retirements[f])
    && (forall f :: RowsOf(t, f) <= RowsOf(later, f))
  }

  /** On linked tables the audit of relocations never fails. */
  lemma ChainsPass(ids: Digests, t: Tables, f: string)
    requires Chained(ids, t) && f in t.artifacts
    ensures Effective(ids, t, f) == Ok(PathAfter(t.artifacts[f], RowsOf(t, f)))
  {
    WalkIffLinked(ids, t.artifacts[f], RowsOf(t, f));
  }

  /** A planned relocation was numbered no later than the next free number, and names its frame as registered. */
  ghost predicate PlanFits(t: Tables, p: Planned) {
    && p.frameRef in t.artifacts && p.content == t.artifacts[p.frameRef].content
       && p.bytes == t.artifacts[p.frameRef].bytes
    && 1 <= p.sequence <= |RowsOf(t, p.frameRef)| + 1 && p.oldPath != p.newPath
  }

  /**
   * However old the plan, a relocation that the tables accept is the next of its frame: a number
   * that was taken since violates the uniqueness of numbers.
   */
  lemma AcceptedMoveIsNext(ids: Digests, t: Tables, p: Planned, note: Note)
    requires Chained(ids, t) && PlanFits(t, p) && CommitMove(ids, t, p, note).Ok?
    ensures CommitMove(ids, t, p, note).value
            == t.(relocations := t.relocations[p.frameRef := RowsOf(t, p.frameRef) + [RowOf(ids, p, note)]])
    ensures p.sequence == |RowsOf(t, p.frameRef)| + 1
            && p.oldPath == PathAfter(t.artifacts[p.frameRef], RowsOf(t, p.frameRef))
  {
    var rows := RowsOf(t, p.frameRef);
    ChainsPass(ids, t, p.frameRef);
    if p.sequence <= |rows| { NumberIsTaken(ids, t, p, note); }
    if rows != [] {
      assert Fits(ids, t.artifacts[p.frameRef], rows[|rows| - 1], |rows|,
                  PathAfter(t.artifacts[p.frameRef], rows[..|rows| - 1]));
    }
  }

  lemma NumberIsTaken(ids: Digests, t: Tables, p: Planned, note: Note)
    requires Chained(ids, t) && p.frameRef in t.artifacts && 1 <= p.sequence <= |RowsOf(t, p.frameRef)|
    ensures !Insertable(t, RowOf(ids, p, note))
  {
    var rows := RowsOf(t, p.frameRef);
    assert Fits(ids, t.artifacts[p.frameRef], rows[p.sequence - 1], p.sequence,
                PathAfter(t.artifacts[p.frameRef], rows[..p.sequence - 1]));
    assert rows[p.sequence - 1] in rows;
  }

  lemma LinkedOneMore(ids: Digests, a: Artifact, rows: seq<Relocation>, row: Relocation)
    requires Linked(ids, a, rows) && Fits(ids, a, row, |rows| + 1, PathAfter(a, rows))
    ensures Linked(ids, a, rows + [row])
  {
    forall i | 0 <= i < |rows + [row]|
      ensures Fits(ids, a, (rows + [row])[i], i + 1, PathAfter(a, (rows + [row])[..i]))
    {
      assert (rows + [row])[..i] == rows[..i];
    }
    assert rows[..|rows|] == rows;
  }

  lemma MoveKeepsChains(ids: Digests, t: Tables, p: Planned, note: Note)
    requires Chained(ids, t) && PlanFits(t, p) && CommitMove(ids, t, p, note).Ok?
    ensures Chained(ids, CommitMove(ids, t, p, note).value)
    ensures Extends(CommitMove(ids, t, p, note).value, t)
  {
    AcceptedMoveIsNext(ids, t, p, note);
    LinkedOneMore(ids, t.artifacts[p.frameRef], RowsOf(t, p.frameRef), RowOf(ids, p, note));
  }

  lemma PlanFitsLater(t: Tables, later: Tables, p: Planned)
    requires PlanFits(t, p) && Extends(later, t)
    ensures PlanFits(later, p)
  {
  }

  lemma ExtendsOnward(a: Tables, b: Tables, c: Tables)
    requires Extends(b, a) && Extends(c, b)
    ensures Extends(c, a)
  {
    forall f ensures RowsOf(a, f) <= RowsOf(c, f) {
      assert RowsOf(a, f) <= RowsOf(b, f) <= RowsOf(c, f);
    }
  }

  /** A whole plan, however old, leaves the chains linked and rewrites nothing. */
  lemma {:induction false} MovesKeepChains(ids: Digests, t: Tables, plan: seq<Planned>, note: Note)
    requires Chained(ids, t) && (forall p | p in plan :: PlanFits(t, p)) && CommitMoves(ids, t, plan, note).Ok?
    ensures Chained(ids, CommitMoves(ids, t, plan, note).value)
    ensures Extends(CommitMoves(ids, t, plan, note).value, t)
    ensures CommitMoves(ids, t, plan, note).value.artifacts == t.artifacts
    ensures CommitMoves(ids, t, plan, note).value.retirements == t.retirements
  {
    if plan != [] {
      var init, p := plan[..|plan| - 1], plan[|plan| - 1];
      assert plan == init + [p];
      MovesKeepChains(ids, t, init, note);
      var t' := CommitMoves(ids, t, init, note).value;
      PlanFitsLater(t, t', p);
      MoveKeepsChains(ids, t', p, note);
      ExtendsOnward(t, t', CommitMove(ids, t', p, note).value);
    }
  }

  /** Different entries of a plan have different frames: the plan comes from a mapping. */
  ghost predicate PlanOfMapping(plan: seq<Planned>) {
    forall i, j | 0 <= i < j < |plan| :: plan[i].frameRef != plan[j].frameRef
  }

  /** The planned relocation starts where its frame was, and is the one row that was added for it. */
  ghost predicate Moved(ids: Digests, t: Tables, t': Tables, p: Planned, note: Note) {
    && p.frameRef in t.artifacts && p.oldPath == PathAfter(t.artifacts[p.frameRef], RowsOf(t, p.frameRef))
    && RowsOf(t', p.frameRef) == RowsOf(t, p.frameRef) + [RowOf(ids, p, note)]
  }

  /** Each frame of the plan gets its one row, all others keep theirs. */
  ghost predicate MovedAsPlanned(ids: Digests, t: Tables, t': Tables, plan: seq<Planned>, note: Note) {
    && (forall p | p in plan :: Moved(ids, t, t', p, note))
    && (forall f | (forall p | p in plan :: p.frameRef != f) :: RowsOf(t', f) == RowsOf(t, f))
  }

  lemma MovedOneMore(ids: Digests, t: Tables, t': Tables, t'': Tables, plan: seq<Planned>, p: Planned, note: Note)
    requires MovedAsPlanned(ids, t, t', plan, note) && t'.artifacts == t.artifacts
    requires forall q | q in plan :: q.frameRef != p.frameRef
    requires Moved(ids, t', t'', p, note) && forall f | f != p.frameRef :: RowsOf(t'', f) == RowsOf(t', f)
    ensures MovedAsPlanned(ids, t, t'', plan + [p], note)
  {
    forall q | q in plan + [p] ensures Moved(ids, t, t'', q, note) {
      if q in plan { assert Moved(ids, t, t', q, note); } else { assert q == p; }
    }
    forall f | (forall q | q in plan + [p] :: q.frameRef != f) ensures RowsOf(t'', f) == RowsOf(t, f) {
      assert p in plan + [p] && forall q | q in plan :: q in plan + [p];
    }
  }

  /** What an accepted plan does. */
  lemma {:induction false} MovesDoWhatIsPlanned(ids: Digests, t: Tables, plan: seq<Planned>, note: Note)
    requires Chained(ids, t) && (forall p | p in plan :: PlanFits(t, p)) && PlanOfMapping(plan)
    requires CommitMoves(ids, t, plan, note).Ok?
    ensures MovedAsPlanned(ids, t, CommitMoves(ids, t, plan, note).value, plan, note)
  {
    if plan != [] {
      var init, p := plan[..|plan| - 1], plan[|plan| - 1];
      assert plan == init + [p];
      LastIsAnother(plan);
      MovesDoWhatIsPlanned(ids, t, init, note);
      var t', t'' := CommitMoves(ids, t, init, note).value, CommitMoves(ids, t, plan, note).value;
      assert CommitMove(ids, t', p, note) == Ok(t'');
      LastMoves(ids, t, t', init, p, note);
      MovedOneMore(ids, t, t', t'', init, p, note);
    }
  }

  lemma LastMoves(ids: Digests, t: Tables, t': Tables, init: seq<Planned>, p: Planned, note: Note)
    requires Chained(ids, t) && (forall q | q in init :: PlanFits(t, q)) && PlanFits(t, p)
    requires CommitMoves(ids, t, init, note) == Ok(t') && CommitMove(ids, t', p, note).Ok?
    ensures var t'' := CommitMove(ids, t', p, note).value;
            t'.artifacts == t.artifacts && Moved(ids, t', t'', p, note)
            && forall f | f != p.frameRef :: RowsOf(t'', f) == RowsOf(t', f)
  {
    MovesKeepChains(ids, t, init, note);
    PlanFitsLater(t, t', p);
    AcceptedMoveIsNext(ids, t', p, note);
  }

  lemma LastIsAnother(plan: seq<Planned>)
    requires plan != [] && PlanOfMapping(plan)
    ensures PlanOfMapping(plan[..|plan| - 1])
    ensures forall q | q in plan[..|plan| - 1] :: q.frameRef != plan[|plan| - 1].frameRef
  {
    var init := plan[..|plan| - 1];
    forall q | q in init ensures q.frameRef != plan[|plan| - 1].frameRef {
      var i :| 0 <= i < |init| && init[i] == q;
      assert plan[i] == q;
    }
  }
}
