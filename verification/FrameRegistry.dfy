/**
 * The registry's operations. Relocating and retiring first read the tables and the files, and then
 * write in a transaction that reads part of it again; in between, other workers may write.
 */
module FrameRegistry {
  import opened Wrappers
  import opened Ordering
  import opened Relocations
  import opened FrameAudit

  /** What the file system says: paths under the roots, existing files, and files with this content, length and name. */
  datatype Files = Files(
    destinations: string -> bool,
    incoming: string -> bool,
    isFile: string -> bool,
    verifies: (string, string, int) -> bool)

  /* ---------- planning a relocation ---------- */

  function PlannedFor(t: Tables, item: Replacement, current: string): Planned
    requires item.key in t.artifacts
  {
    var a := t.artifacts[item.key];
    Planned(item.key, a.content, a.bytes, current, item.destination, MaxSequence(RowsOf(t, item.key)) + 1)
  }

  /** The frame passes its audits, is not retired, and the paths and the file are acceptable. */
  predicate Movable(ids: Digests, t: Tables, item: Replacement, files: Files) {
    && Effective(ids, t, item.key).Ok? && Retired(ids, t, item.key) == Ok(false)
    && files.destinations(item.destination) && files.incoming(item.incoming) && files.isFile(item.incoming)
    && (item.destination != Effective(ids, t, item.key).value ==>
          files.verifies(item.incoming, t.artifacts[item.key].content, t.artifacts[item.key].bytes))
  }

  predicate Plannable(ids: Digests, t: Tables, items: seq<Replacement>, files: Files) {
    && (forall i | 0 <= i < |items| :: Movable(ids, t, items[i], files))
    && (forall i, j | 0 <= i < j < |items| :: items[i].destination != items[j].destination)
  }

  /** One entry for each frame that is to move, in order. */
  function PlanOf(ids: Digests, t: Tables, items: seq<Replacement>): seq<Planned> {
    if items == [] then []
    else
      var item, before := items[|items| - 1], PlanOf(ids, t, items[..|items| - 1]);
      match Effective(ids, t, item.key)
      case Err(_) => before
      case Ok(path) => if path == item.destination then before else before + [PlannedFor(t, item, path)]
  }

  lemma PlannableOneMore(ids: Digests, t: Tables, items: seq<Replacement>, i: nat, files: Files)
    requires i < |items|
    ensures Plannable(ids, t, items[..i + 1], files) <==>
              Plannable(ids, t, items[..i], files) && Movable(ids, t, items[i], files)
              && forall j | 0 <= j < i :: items[j].destination != items[i].destination
    ensures Plannable(ids, t, items, files) ==> Plannable(ids, t, items[..i + 1], files)
  {
    assert items[..i + 1] == items[..i] + [items[i]];
  }

  /** The path of a frame that may move, before its file is looked into. */
  method MovablePath(ids: Digests, t: Tables, item: Replacement, files: Files) returns (r: Result<string, Fault>)
    ensures r.Ok? ==> Effective(ids, t, item.key) == Ok(r.value)
    ensures r.Ok? ==> (Movable(ids, t, item, files) <==>
              item.destination == r.value
              || files.verifies(item.incoming, t.artifacts[item.key].content, t.artifacts[item.key].bytes))
    ensures r.Err? ==> !Movable(ids, t, item, files)
  {
    if item.key !in t.artifacts { return Err(NotRegistered); }
    var path := FollowRelocations(ids, t.artifacts[item.key], RowsOf(t, item.key));
    if path.None? { return Err(RelocationAuditInvalid); }
    var retired := Retired(ids, t, item.key);
    if retired.Err? { return Err(retired.error); }
    if retired.value { return Err(AlreadyRetired); }
    if !files.destinations(item.destination) { return Err(PathRefused); }
    if !(files.incoming(item.incoming) && files.isFile(item.incoming)) { return Err(PathRefused); }
    r := Ok(path.value);
  }

  function Destinations(items: seq<Replacement>): set<string> {
    set item | item in items :: item.destination
  }

  lemma DestinationsOneMore(items: seq<Replacement>, i: nat)
    requires i < |items|
    ensures Destinations(items[..i + 1]) == Destinations(items[..i]) + {items[i].destination}
    ensures items[i].destination in Destinations(items[..i]) <==>
              exists j :: 0 <= j < i && items[j].destination == items[i].destination
  {
    assert items[..i + 1] == items[..i] + [items[i]];
    if items[i].destination in Destinations(items[..i]) {
      var item :| item in items[..i] && item.destination == items[i].destination;
      var j :| 0 <= j < i && items[..i][j] == item;
      assert items[j].destination == items[i].destination;
    }
    if j :| 0 <= j < i && items[j].destination == items[i].destination { assert items[..i][j] in items[..i]; }
  }

  method PlanRelocations(ids: Digests, t: Tables, items: seq<Replacement>, files: Files)
    returns (r: Result<seq<Planned>, Fault>)
    ensures r.Ok? <==> Plannable(ids, t, items, files)
    ensures r.Ok? ==> r.value == PlanOf(ids, t, items)
  {
    var planned: seq<Planned>, destinations: set<string> := [], {};
    for i := 0 to |items|
      invariant Plannable(ids, t, items[..i], files) && planned == PlanOf(ids, t, items[..i])
      invariant destinations == Destinations(items[..i])
    {
      assert items[..i + 1][..i] == items[..i];
      PlannableOneMore(ids, t, items, i, files);
      DestinationsOneMore(items, i);
      var entry := PlanOne(ids, t, items[i], files, items[i].destination in destinations);
      if entry.Err? { return Err(entry.error); }
      destinations := destinations + {items[i].destination};
      planned := planned + entry.value;
    }
    assert items[..|items|] == items;
    r := Ok(planned);
  }

  /**
   * The entry for one frame, none if it is where it should be; `taken` says that another one goes to its
   * destination.
   */
  method PlanOne(ids: Digests, t: Tables, item: Replacement, files: Files, taken: bool)
    returns (r: Result<seq<Planned>, Fault>)
    ensures r.Ok? <==> Movable(ids, t, item, files) && !taken
    ensures r.Ok? ==> r.value == if Effective(ids, t, item.key) == Ok(item.destination) then []
                                 else [PlannedFor(t, item, Effective(ids, t, item.key).value)]
  {
    var path := MovablePath(ids, t, item, files);
    if path.Err? { return Err(path.error); }
    if taken { return Err(DestinationCollision); }
    if item.destination == path.value { return Ok([]); }
    var a := t.artifacts[item.key];
    r := if files.verifies(item.incoming, a.content, a.bytes) then Ok([PlannedFor(t, item, path.value)])
        else Err(FileRefused);
  }

  /* ---------- retiring ---------- */

  /** The frame passes its audits, is not retired, and its file is there. */
  predicate Retirable(ids: Digests, t: Tables, frameRef: string, files: Files) {
    && Effective(ids, t, frameRef).Ok? && Retired(ids, t, frameRef) == Ok(false)
    && files.verifies(Effective(ids, t, frameRef).value, t.artifacts[frameRef].content, t.artifacts[frameRef].bytes)
  }

  function FarewellOf(ids: Digests, t: Tables, frameRef: string, note: Note): Farewell
    requires Effective(ids, t, frameRef).Ok?
  {
    Farewell(frameRef, t.artifacts[frameRef].content, t.artifacts[frameRef].bytes, Effective(ids, t, frameRef).value,
             note)
  }

  /**
   * The retirement inside the transaction. Its path is the one read before; only content and length are
   * compared again.
   */
  function CommitFarewell(ids: Digests, t: Tables, w: Farewell, files: Files): Result<Tables, Fault> {
    match Effective(ids, t, w.frameRef)
    case Err(fault) => Err(fault)
    case Ok(path) =>
      match Retired(ids, t, w.frameRef)
      case Err(fault) => Err(fault)
      case Ok(retired) =>
        var a := t.artifacts[w.frameRef];
        if retired then Err(AlreadyRetired)
        else if a.content != w.content || a.bytes != w.bytes then Err(IdentityConflict)
        else if !files.verifies(path, a.content, a.bytes) then Err(FileRefused)
        else if exists f | f in t.retirements :: t.retirements[f].id == ids.farewell(w) then Err(ConstraintViolated)
        else Ok(t.(retirements := t.retirements[w.frameRef := Retirement(ids.farewell(w), w)]))
  }

  /* ---------- the registry ---------- */

  class Registry {
    const ids: Digests
    var tables: Tables

    constructor (ids: Digests)
      ensures this.ids == ids && tables == Tables(map[], map[], map[])
    {
      this.ids := ids;
      tables := Tables(map[], map[], map[]);
    }

    /** `verified` is the receipt after its file was verified, nothing when that failed. */
    method RegisterArtifact(verified: Option<Artifact>) returns (r: Result<bool, Fault>)
      modifies this
      ensures verified.None? ==> r == Err(FileRefused) && tables == old(tables)
      ensures verified.Some? ==> r == Registered(ids, old(tables), verified.value)
      ensures verified.Some? ==> tables == WithArtifact(old(tables), verified.value)
    {
      if verified.None? { return Err(FileRefused); }
      var a := verified.value;
      var inserted := !Conflicts(tables, a);
      if inserted { tables := tables.(artifacts := tables.artifacts[a.frameRef := a]); }
      if a.frameRef !in tables.artifacts { return Err(NotRegistered); }
      if tables.artifacts[a.frameRef] != a { return Err(IdentityConflict); }
      var retired := Retired(ids, tables, a.frameRef);
      if retired.Err? { return Err(retired.error); }
      r := if retired.value then Err(AlreadyRetired) else Ok(inserted);
    }

    /** The transaction of a relocation: all rows are inserted, or none. */
    method CommitRelocations(plan: seq<Planned>, note: Note) returns (r: Result<seq<string>, Fault>)
      modifies this
      ensures r.Ok? <==> CommitMoves(ids, old(tables), plan, note).Ok?
      ensures tables == if r.Ok? then CommitMoves(ids, old(tables), plan, note).value else old(tables)
      ensures r.Ok? ==> r.value == RowIds(ids, plan, note)
    {
      var t, relocationIds := tables, [];
      for i := 0 to |plan|
        invariant tables == old(tables)
        invariant CommitMoves(ids, tables, plan[..i], note) == Ok(t)
        invariant relocationIds == RowIds(ids, plan[..i], note)
      {
        assert plan[..i + 1][..i] == plan[..i];
        var moved := CommitMove(ids, t, plan[i], note);
        if moved.Err? {
          FailureStands(ids, tables, plan, note, i + 1);
          return Err(moved.error);
        }
        t := moved.value;
        relocationIds := relocationIds + [RowOf(ids, plan[i], note).id];
      }
      assert plan[..|plan|] == plan;
      tables := t;
      r := Ok(relocationIds);
    }

    /** A whole call with nobody in between. */
    method RelocateArtifacts(items: seq<Replacement>, files: Files, note: Note) returns (r: Result<seq<string>, Fault>)
      requires SortedMapping(items)
      modifies this
      ensures r.Ok? <==> GoodNote(note) && Plannable(ids, old(tables), items, files)
                         && CommitMoves(ids, old(tables), PlanOf(ids, old(tables), items), note).Ok?
      ensures tables == if r.Ok? then CommitMoves(ids, old(tables), PlanOf(ids, old(tables), items), note).value
                        else old(tables)
    {
      if !GoodNote(note) { return Err(InvalidArguments); }
      var plan := PlanRelocations(ids, tables, items, files);
      if plan.Err? { return Err(plan.error); }
      r := CommitRelocations(plan.value, note);
    }

    method VerifyRegistered(frameRef: string, files: Files) returns (r: Result<string, Fault>)
      ensures r.Ok? <==> Retirable(ids, tables, frameRef, files)
      ensures r.Ok? ==> Effective(ids, tables, frameRef) == Ok(r.value)
    {
      if frameRef !in tables.artifacts { return Err(NotRegistered); }
      var a := tables.artifacts[frameRef];
      var path := FollowRelocations(ids, a, RowsOf(tables, frameRef));
      if path.None? { return Err(RelocationAuditInvalid); }
      var retired := Retired(ids, tables, frameRef);
      if retired.Err? { return Err(retired.error); }
      if retired.value { return Err(AlreadyRetired); }
      r := if files.verifies(path.value, a.content, a.bytes) then Ok(path.value) else Err(FileRefused);
    }

    /** The transaction of a retirement. */
    method CommitRetirement(w: Farewell, files: Files) returns (r: Result<string, Fault>)
      modifies this
      ensures r.Ok? <==> CommitFarewell(ids, old(tables), w, files).Ok?
      ensures tables == if r.Ok? then CommitFarewell(ids, old(tables), w, files).value else old(tables)
      ensures r.Ok? ==> r.value == ids.farewell(w)
    {
      var written := CommitFarewell(ids, tables, w, files);
      if written.Err? { return Err(written.error); }
      tables := written.value;
      r := Ok(ids.farewell(w));
    }

    /** A whole call with nobody in between; the files may change during it. */
    method RetireArtifact(frameRef: string, before: Files, during: Files, note: Note) returns (r: Result<string, Fault>)
      modifies this
      ensures r.Ok? <==> GoodNote(note) && Retirable(ids, old(tables), frameRef, before)
                         && CommitFarewell(ids, old(tables), FarewellOf(ids, old(tables), frameRef, note), during).Ok?
      ensures r.Ok? ==>
                tables == CommitFarewell(ids, old(tables), FarewellOf(ids, old(tables), frameRef, note), during).value
      ensures r.Err? ==> tables == old(tables)
    {
      if !GoodNote(note) { return Err(InvalidArguments); }
      var path := VerifyRegistered(frameRef, before);
      if path.Err? { return Err(path.error); }
      var a := tables.artifacts[frameRef];
      r := CommitRetirement(Farewell(frameRef, a.content, a.bytes, path.value, note), during);
    }

    /** One frame of the registry: whether it is active, when its audits and, if asked for, its file pass. */
    method VerifyFrame(frameRef: string, files: Files, requireActiveFiles: bool, ghost passing: set<string>,
                       ghost active: set<string>)
      returns (r: Result<bool, Fault>)
      requires frameRef in tables.artifacts && Verdicts(ids, tables, files, requireActiveFiles, passing, active)
      ensures r.Ok? <==> frameRef in passing
      ensures r.Ok? ==> r.value == (frameRef in active)
    {
      assert frameRef in passing <==> FramePasses(ids, tables, frameRef, files, requireActiveFiles);
      var path := FollowRelocations(ids, tables.artifacts[frameRef], RowsOf(tables, frameRef));
      if path.None? { return Err(RelocationAuditInvalid); }
      var retired := Retired(ids, tables, frameRef);
      if retired.Err? { return Err(retired.error); }
      if !retired.value && requireActiveFiles {
        var verified := VerifyRegistered(frameRef, files);
        if verified.Err? { return Err(verified.error); }
      }
      r := Ok(!retired.value);
    }

    method CountActive(files: Files, requireActiveFiles: bool, ghost passing: set<string>, ghost active: set<string>)
      returns (r: Result<nat, Fault>)
      requires Verdicts(ids, tables, files, requireActiveFiles, passing, active)
      ensures r.Ok? <==> tables.artifacts.Keys <= passing
      ensures r.Ok? ==> r.value == |active|
    {
      var pending, count: nat := tables.artifacts.Keys, 0;
      while pending != {}
        invariant pending <= tables.artifacts.Keys && tables.artifacts.Keys - pending <= passing
        invariant count == |active - pending|
      {
        SomeMember(pending);
        var frameRef :| frameRef in pending;
        var isActive := VerifyFrame(frameRef, files, requireActiveFiles, passing, active);
        if isActive.Err? { return Err(isActive.error); }
        OneLessPending(active, pending, frameRef);
        pending := pending - {frameRef};
        if isActive.value { count := count + 1; }
      }
      assert active - pending == active;
      r := Ok(count);
    }

    /**
     * Checks every chain and counts the frames that are not retired, whose files are checked when that is
     * asked for.
     */
    method VerifyRegistry(files: Files, requireActiveFiles: bool) returns (r: Result<nat, Fault>)
      ensures r.Ok? <==> forall f | f in tables.artifacts :: FramePasses(ids, tables, f, files, requireActiveFiles)
      ensures r.Ok? ==> r.value == |Active(ids, tables)|
    {
      ghost var passing := set f | f in tables.artifacts && FramePasses(ids, tables, f, files, requireActiveFiles);
      r := CountActive(files, requireActiveFiles, passing, Active(ids, tables));
    }
  }

  lemma OneLessPending(active: set<string>, pending: set<string>, f: string)
    requires f in pending
    ensures |active - (pending - {f})| == |active - pending| + if f in active then 1 else 0
  {
    if f in active {
      assert active - (pending - {f}) == (active - pending) + {f};
    } else {
      assert active - (pending - {f}) == active - pending;
    }
  }

  /** The frames that pass, and those that are active. */
  ghost predicate Verdicts(ids: Digests, t: Tables, files: Files, requireActiveFiles: bool, passing: set<string>,
                           active: set<string>)
  {
    && active <= t.artifacts.Keys
    && forall f {:trigger FramePasses(ids, t, f, files, requireActiveFiles)} | f in t.artifacts ::
         (f in passing <==> FramePasses(ids, t, f, files, requireActiveFiles))
         && (f in active <==> Retired(ids, t, f) == Ok(false))
  }

  /** The ids of the rows that a plan writes. */
  function RowIds(ids: Digests, plan: seq<Planned>, note: Note): seq<string> {
    seq(|plan|, i requires 0 <= i < |plan| => RowOf(ids, plan[i], note).id)
  }

  /** The frames whose audits say that they are not retired. */
  function Active(ids: Digests, t: Tables): set<string> {
    set f | f in t.artifacts && Retired(ids, t, f) == Ok(false)
  }

  predicate FramePasses(ids: Digests, t: Tables, f: string, files: Files, requireActiveFiles: bool) {
    && Effective(ids, t, f).Ok? && Retired(ids, t, f).Ok?
    && (requireActiveFiles && !Retired(ids, t, f).value ==> Retirable(ids, t, f, files))
  }

  lemma {:induction false} FailureStands(ids: Digests, t: Tables, plan: seq<Planned>, note: Note, n: nat)
    requires n <= |plan| && CommitMoves(ids, t, plan[..n], note).Err?
    ensures CommitMoves(ids, t, plan, note).Err?
  {
    if n == |plan| {
      assert plan[..n] == plan;
    } else {
      assert plan[..|plan| - 1][..n] == plan[..n];
      FailureStands(ids, t, plan[..|plan| - 1], note, n);
    }
  }
}
