/**
 * The tables of raw source artifacts. An artifact's row holds the path where its file lives now, and
 * every change of it is recorded by a relocation in the same transaction.
 */
module RawAudit {
  import opened Wrappers
  import opened Relocations

  datatype RawArtifact = RawArtifact(
    artifactId: string,
    content: string,
    source: string,
    path: string,
    uncompressedBytes: int,
    compressedBytes: int,
    fingerprint: string)

  /** What a relocation's id is the digest of: the row before it, the new path, who moved it, and its number. */
  datatype RawMove = RawMove(before: RawArtifact, newPath: string, note: Note, sequence: int)

  datatype RawRelocation = RawRelocation(id: string, move: RawMove)

  type Digest = RawMove -> string

  /** Rows by artifact; the relocations of an artifact in the order of their sequence numbers. */
  datatype RawTables = RawTables(artifacts: map<string, RawArtifact>, relocations: map<string, seq<RawRelocation>>)

  datatype RawFault =
    | Missing | InvalidArguments | PathRefused | DestinationCollision | FileRefused | Changed | ConstraintViolated
    | Mismatch

  function RowsOf(t: RawTables, id: string): seq<RawRelocation> {
    if id in t.relocations then t.relocations[id] else []
  }

  function MaxSequence(rows: seq<RawRelocation>): int {
    if rows == [] then 0
    else
      var m, last := MaxSequence(rows[..|rows| - 1]), rows[|rows| - 1].move.sequence;
      if |rows| == 1 || m < last then last else m
  }

  /** Where the rows lead from a path, when each starts where the one before ended. */
  function Replay(path: string, rows: seq<RawRelocation>): Option<string> {
    if rows == [] then Some(path)
    else
      var last := rows[|rows| - 1].move;
      if Replay(path, rows[..|rows| - 1]) == Some(last.before.path) then Some(last.newPath) else None
  }

  /* ---------- the transaction ---------- */

  datatype RawPlanned = RawPlanned(authority: RawArtifact, destination: string, incoming: string)

  /** Paths are unique: nobody else's row holds this one. */
  predicate Free(t: RawTables, id: string, path: string) {
    forall other | other in t.artifacts && other != id :: t.artifacts[other].path != path
  }

  predicate NewId(t: RawTables, rowId: string) {
    forall id | id in t.relocations :: forall r | r in t.relocations[id] :: r.id != rowId
  }

  function MoveNow(t: RawTables, p: RawPlanned, note: Note): RawMove {
    RawMove(p.authority, p.destination, note, MaxSequence(RowsOf(t, p.authority.artifactId)) + 1)
  }

  /** One planned relocation: checked again against the row, recorded, and then applied to the row. */
  function CommitMove(digest: Digest, verifies: (string, RawArtifact) -> bool, t: RawTables, p: RawPlanned, note: Note)
    : Result<RawTables, RawFault>
  {
    var id := p.authority.artifactId;
    var row := RawRelocation(digest(MoveNow(t, p, note)), MoveNow(t, p, note));
    if id !in t.artifacts then Err(Missing)
    else if t.artifacts[id] != p.authority then Err(Changed)
    else if !verifies(p.incoming, p.authority) then Err(FileRefused)
    else if !NewId(t, row.id) || p.destination == p.authority.path || !Free(t, id, p.destination) then
      Err(ConstraintViolated)
    else Ok(RawTables(t.artifacts[id := p.authority.(path := p.destination)],
                      t.relocations[id := RowsOf(t, id) + [row]]))
  }

  function CommitMoves(digest: Digest, verifies: (string, RawArtifact) -> bool, t: RawTables, plan: seq<RawPlanned>,
                       note: Note)
    : Result<RawTables, RawFault>
  {
    if plan == [] then Ok(t)
    else
      match CommitMoves(digest, verifies, t, plan[..|plan| - 1], note)
      case Err(fault) => Err(fault)
      case Ok(t') => CommitMove(digest, verifies, t', plan[|plan| - 1], note)
  }

  /* ---------- recording ---------- */

  /** A new artifact is inserted when its path, and its content within its source, are nobody else's. */
  predicate Recordable(t: RawTables, a: RawArtifact) {
    && a.artifactId !in t.artifacts && Free(t, a.artifactId, a.path)
    && forall id | id in t.artifacts :: t.artifacts[id].source != a.source || t.artifacts[id].content != a.content
  }

  function WithArtifact(t: RawTables, a: RawArtifact): RawTables {
    if Recordable(t, a) then t.(artifacts := t.artifacts[a.artifactId := a]) else t
  }

  /* ---------- what every run keeps ---------- */

  /** An artifact's rows are numbered from one, name it as it is but for its path, and have their digests. */
  ghost predicate Numbered(digest: Digest, a: RawArtifact, rows: seq<RawRelocation>) {
    forall i | 0 <= i < |rows| ::
      && rows[i].move.sequence == i + 1 && rows[i].id == digest(rows[i].move)
      && rows[i].move.before.(path := a.path) == a
  }

  /** The path of an artifact's first row. */
  function Origin(a: RawArtifact, rows: seq<RawRelocation>): string {
    if rows == [] then a.path else rows[0].move.before.path
  }

  /** The rows of the artifact, replayed from where it was first, lead to the path that its row holds. */
  ghost predicate Faithful(digest: Digest, a: RawArtifact, rows: seq<RawRelocation>) {
    Numbered(digest, a, rows) && Replay(Origin(a, rows), rows) == Some(a.path)
  }

  ghost predicate Audited(digest: Digest, t: RawTables) {
    && t.relocations.Keys <= t.artifacts.Keys
    && (forall id | id in t.artifacts ::
        t.artifacts[id].artifactId == id && Faithful(digest, t.artifacts[id], RowsOf(t, id)))
  }

  ghost predicate DistinctPaths(t: RawTables) {
    forall id | id in t.artifacts :: Free(t, id, t.artifacts[id].path)
  }

  /** Only the path changed, and the rows added since lead from the path then to the path now. */
  ghost predicate Leads(a: RawArtifact, rows: seq<RawRelocation>, b: RawArtifact, more: seq<RawRelocation>) {
    b.(path := a.path) == a && rows <= more && Replay(a.path, more[|rows|..]) == Some(b.path)
  }

  ghost predicate Continues(later: RawTables, t: RawTables) {
    forall id | id in t.artifacts ::
      id in later.artifacts && Leads(t.artifacts[id], RowsOf(t, id), later.artifacts[id], RowsOf(later, id))
  }

  lemma {:induction false} ReplayAppends(path: string, a: seq<RawRelocation>, b: seq<RawRelocation>)
    ensures Replay(path, a + b) == if Replay(path, a).None? then None else Replay(Replay(path, a).value, b)
  {
    if b == [] {
      assert a + b == a;
    } else {
      ReplayAppends(path, a, b[..|b| - 1]);
      assert (a + b)[..|a + b| - 1] == a + b[..|b| - 1];
    }
  }

  lemma {:induction false} NumbersEndAtLength(digest: Digest, a: RawArtifact, rows: seq<RawRelocation>)
    requires Numbered(digest, a, rows)
    ensures MaxSequence(rows) == |rows|
  {
    if rows != [] { NumbersEndAtLength(digest, a, rows[..|rows| - 1]); }
  }

  lemma FaithfulOneMore(digest: Digest, a: RawArtifact, rows: seq<RawRelocation>, move: RawMove)
    requires Faithful(digest, a, rows) && move.before == a && move.sequence == |rows| + 1
    ensures Faithful(digest, a.(path := move.newPath), rows + [RawRelocation(digest(move), move)])
  {
    var more := rows + [RawRelocation(digest(move), move)];
    assert more[..|rows|] == rows;
    assert Origin(a.(path := move.newPath), more) == Origin(a, rows);
  }

  lemma FreeAfterMove(t: RawTables, id: string, path: string)
    requires id in t.artifacts && DistinctPaths(t) && Free(t, id, path)
    ensures DistinctPaths(t.(artifacts := t.artifacts[id := t.artifacts[id].(path := path)]))
  {
  }

  lemma MoveKeepsAudits(digest: Digest, verifies: (string, RawArtifact) -> bool, t: RawTables, p: RawPlanned,
                        note: Note)
    requires Audited(digest, t) && DistinctPaths(t) && CommitMove(digest, verifies, t, p, note).Ok?
    ensures var t' := CommitMove(digest, verifies, t, p, note).value; Audited(digest, t') && DistinctPaths(t')
  {
    var id := p.authority.artifactId;
    FreeAfterMove(t, id, p.destination);
    NumbersEndAtLength(digest, p.authority, RowsOf(t, id));
    OneArtifactMoves(digest, t, id, MoveNow(t, p, note));
  }

  lemma OneArtifactMoves(digest: Digest, t: RawTables, id: string, move: RawMove)
    requires Audited(digest, t) && id in t.artifacts && move.before == t.artifacts[id]
             && move.sequence == |RowsOf(t, id)| + 1
    ensures Audited(digest, RawTables(t.artifacts[id := move.before.(path := move.newPath)],
                                      t.relocations[id := RowsOf(t, id) + [RawRelocation(digest(move), move)]]))
  {
    var t' := RawTables(t.artifacts[id := move.before.(path := move.newPath)],
                        t.relocations[id := RowsOf(t, id) + [RawRelocation(digest(move), move)]]);
    FaithfulOneMore(digest, t.artifacts[id], RowsOf(t, id), move);
    forall other | other in t'.artifacts
      ensures t'.artifacts[other].artifactId == other && Faithful(digest, t'.artifacts[other], RowsOf(t', other))
    {
      if other != id { assert RowsOf(t', other) == RowsOf(t, other); }
    }
  }

  lemma LeadsToItself(a: RawArtifact, rows: seq<RawRelocation>)
    ensures Leads(a, rows, a, rows)
  {
    assert rows[|rows|..] == [];
  }

  lemma LeadsOneMore(a: RawArtifact, rows: seq<RawRelocation>, row: RawRelocation)
    requires row.move.before == a
    ensures Leads(a, rows, a.(path := row.move.newPath), rows + [row])
  {
    assert (rows + [row])[|rows|..] == [row] && [row][..0] == [];
    assert Replay(a.path, []) == Some(a.path);
  }

  lemma LeadsOnward(a: RawArtifact, x: seq<RawRelocation>, b: RawArtifact, y: seq<RawRelocation>, c: RawArtifact,
                    z: seq<RawRelocation>)
    requires Leads(a, x, b, y) && Leads(b, y, c, z)
    ensures Leads(a, x, c, z)
  {
    assert x <= y <= z;
    assert z[|x|..] == y[|x|..] + z[|y|..];
    ReplayAppends(a.path, y[|x|..], z[|y|..]);
  }

  lemma MoveContinues(digest: Digest, verifies: (string, RawArtifact) -> bool, t: RawTables, p: RawPlanned, note: Note)
    requires CommitMove(digest, verifies, t, p, note).Ok?
    ensures Continues(CommitMove(digest, verifies, t, p, note).value, t)
  {
    var id := p.authority.artifactId;
    var t', row := CommitMove(digest, verifies, t, p, note).value,
        RawRelocation(digest(MoveNow(t, p, note)), MoveNow(t, p, note));
    LeadsOneMore(p.authority, RowsOf(t, id), row);
    forall other | other in t.artifacts && other != id
      ensures Leads(t.artifacts[other], RowsOf(t, other), t'.artifacts[other], RowsOf(t', other))
    {
      LeadsToItself(t.artifacts[other], RowsOf(t, other));
    }
  }

  lemma ContinuesOnward(a: RawTables, b: RawTables, c: RawTables)
    requires Continues(b, a) && Continues(c, b)
    ensures Continues(c, a)
  {
    forall id | id in a.artifacts
      ensures id in c.artifacts && Leads(a.artifacts[id], RowsOf(a, id), c.artifacts[id], RowsOf(c, id))
    {
      LeadsOnward(a.artifacts[id], RowsOf(a, id), b.artifacts[id], RowsOf(b, id), c.artifacts[id], RowsOf(c, id));
    }
  }

  lemma SameRowsContinue(later: RawTables, t: RawTables)
    requires forall id | id in t.artifacts :: id in later.artifacts && later.artifacts[id] == t.artifacts[id]
    requires later.relocations == t.relocations
    ensures Continues(later, t)
  {
    forall id | id in t.artifacts
      ensures Leads(t.artifacts[id], RowsOf(t, id), later.artifacts[id], RowsOf(later, id))
    {
      LeadsToItself(t.artifacts[id], RowsOf(t, id));
    }
  }

  lemma {:induction false} MovesKeepAudits(digest: Digest, verifies: (string, RawArtifact) -> bool, t: RawTables,
                                           plan: seq<RawPlanned>, note: Note)
    requires Audited(digest, t) && DistinctPaths(t) && CommitMoves(digest, verifies, t, plan, note).Ok?
    ensures var t' := CommitMoves(digest, verifies, t, plan, note).value;
            Audited(digest, t') && DistinctPaths(t') && Continues(t', t)
  {
    if plan == [] {
      SameRowsContinue(t, t);
    } else {
      var init, p := plan[..|plan| - 1], plan[|plan| - 1];
      MovesKeepAudits(digest, verifies, t, init, note);
      var t' := CommitMoves(digest, verifies, t, init, note).value;
      MoveKeepsAudits(digest, verifies, t', p, note);
      MoveContinues(digest, verifies, t', p, note);
      ContinuesOnward(t, t', CommitMove(digest, verifies, t', p, note).value);
    }
  }

  lemma RecordingKeepsPaths(t: RawTables, a: RawArtifact)
    requires DistinctPaths(t) && Recordable(t, a)
    ensures DistinctPaths(t.(artifacts := t.artifacts[a.artifactId := a]))
  {
  }

  lemma RecordingKeepsRows(digest: Digest, t: RawTables, a: RawArtifact)
    requires Audited(digest, t) && a.artifactId !in t.artifacts
    ensures Audited(digest, t.(artifacts := t.artifacts[a.artifactId := a]))
  {
    var t' := t.(artifacts := t.artifacts[a.artifactId := a]);
    assert RowsOf(t', a.artifactId) == [];
    forall id | id in t'.artifacts
      ensures t'.artifacts[id].artifactId == id && Faithful(digest, t'.artifacts[id], RowsOf(t', id))
    {
      if id != a.artifactId { assert RowsOf(t', id) == RowsOf(t, id); }
    }
  }

  lemma RecordingKeepsAudits(digest: Digest, t: RawTables, a: RawArtifact)
    requires Audited(digest, t) && DistinctPaths(t)
    ensures Audited(digest, WithArtifact(t, a)) && DistinctPaths(WithArtifact(t, a)) && Continues(WithArtifact(t, a), t)
  {
    SameRowsContinue(WithArtifact(t, a), t);
    if Recordable(t, a) {
      RecordingKeepsPaths(t, a);
      RecordingKeepsRows(digest, t, a);
    }
  }
}
