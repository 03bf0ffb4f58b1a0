/**
 * What the calls of the two registries do, told without their checks and plans: which frames and
 * artifacts get in, where they are after a relocation, and when a frame can be retired.
 */
module RegistryMeaning {
  import opened Wrappers
  import opened Relocations
  import opened FrameAudit
  import opened FrameRegistry
  import opened FrameRuns

  /* ---------- frames ---------- */

  /** A frame that no registered frame is like: another name, another content and another path than each. */
  predicate Unlike(t: Tables, a: Artifact) {
    forall f | f in t.artifacts ::
      f != a.frameRef && t.artifacts[f].content != a.content && t.artifacts[f].path != a.path
  }

  /** A frame is inserted exactly when no registered one is like it; all other rows stay as they are. */
  lemma InsertedIffUnlike(ids: Digests, t: Tables, a: Artifact)
    requires Audited(ids, t)
    ensures Registered(ids, t, a) == Ok(true) <==> Unlike(t, a)
    ensures AfterCall(ids, t, RegisterCall(a))
            == if Unlike(t, a) then t.(artifacts := t.artifacts[a.frameRef := a]) else t
  {
    RegisteringOutcomes(ids, t, a);
    assert Unlike(t, a) <==> !Conflicts(t, a);
  }

  const EMPTY := Tables(map[], map[], map[])

  function RegisterAll(frames: seq<Artifact>): (calls: seq<Call>)
    ensures |calls| == |frames|
  {
    seq(|frames|, i requires 0 <= i < |frames| => RegisterCall(frames[i]))
  }

  /** The tables hold exactly these frames, by their names, and nothing else. */
  ghost predicate HoldsExactly(t: Tables, frames: seq<Artifact>) {
    && t.relocations == map[] && t.retirements == map[]
    && (forall a | a in frames :: a.frameRef in t.artifacts && t.artifacts[a.frameRef] == a)
    && (forall f | f in t.artifacts :: t.artifacts[f].frameRef == f && t.artifacts[f] in frames)
  }

  /** Two frames that can both be registered. */
  predicate Differ(a: Artifact, b: Artifact) {
    a.frameRef != b.frameRef && a.content != b.content && a.path != b.path
  }

  lemma OneMoreIsRegistered(t: Tables, frames: seq<Artifact>, a: Artifact)
    requires HoldsExactly(t, frames) && forall i | 0 <= i < |frames| :: Differ(frames[i], a)
    ensures HoldsExactly(WithArtifact(t, a), frames + [a])
  {
    assert !Conflicts(t, a);
    assert forall b :: b in frames + [a] <==> b in frames || b == a;
  }

  lemma RegisterOneMore(ids: Digests, frames: seq<Artifact>)
    requires frames != []
    ensures AfterCalls(ids, EMPTY, RegisterAll(frames))
            == WithArtifact(AfterCalls(ids, EMPTY, RegisterAll(frames[..|frames| - 1])), frames[|frames| - 1])
  {
    assert RegisterAll(frames)[..|frames| - 1] == RegisterAll(frames[..|frames| - 1]);
  }

  /** Frames that differ pairwise in name, content and path are all registered, in any order. */
  lemma {:induction false} UnlikeFramesAreAllRegistered(ids: Digests, frames: seq<Artifact>)
    requires forall i, j | 0 <= i < j < |frames| :: Differ(frames[i], frames[j])
    ensures HoldsExactly(AfterCalls(ids, EMPTY, RegisterAll(frames)), frames)
  {
    if frames != [] {
      UnlikeFramesAreAllRegistered(ids, frames[..|frames| - 1]);
      LastIsRegistered(AfterCalls(ids, EMPTY, RegisterAll(frames[..|frames| - 1])), frames);
      RegisterOneMore(ids, frames);
    }
  }

  lemma LastIsRegistered(t: Tables, frames: seq<Artifact>)
    requires frames != [] && forall i | 0 <= i < |frames| - 1 :: Differ(frames[i], frames[|frames| - 1])
    requires HoldsExactly(t, frames[..|frames| - 1])
    ensures HoldsExactly(WithArtifact(t, frames[|frames| - 1]), frames)
  {
    var init, last := frames[..|frames| - 1], frames[|frames| - 1];
    OneMoreIsRegistered(t, init, last);
    assert frames == init + [last];
  }

  /** Where a frame is, when its chain passes. */
  function PathOf(ids: Digests, t: Tables, f: string): Option<string> {
    match Effective(ids, t, f) case Ok(path) => Some(path) case Err(_) => None
  }

  /** The reason and the actor of a call are there and have at most 256 characters. */
  predicate SaysWhyAndWho(note: Note) {
    note.reason != "" && |note.reason| <= 256 && note.actor != "" && |note.actor| <= 256
  }

  /** The item's frame is registered and was never retired, and the paths and the file are in order. */
  predicate MayMove(ids: Digests, t: Tables, item: Replacement, files: Files) {
    && item.key in t.artifacts && item.key !in t.retirements
    && files.destinations(item.destination) && files.incoming(item.incoming) && files.isFile(item.incoming)
    && (PathOf(ids, t, item.key) == Some(item.destination)
        || files.verifies(item.incoming, t.artifacts[item.key].content, t.artifacts[item.key].bytes))
  }

  lemma MovableIffMayMove(ids: Digests, t: Tables, item: Replacement, files: Files)
    requires Audited(ids, t)
    ensures Movable(ids, t, item, files) <==> MayMove(ids, t, item, files)
  {
    if item.key in t.artifacts { ChainsPass(ids, t, item.key); }
    if item.key in t.retirements { RetirementAuditIff(ids, t, item.key); }
  }

  /** The plan moves the item's frame to its destination. */
  ghost predicate Plans(plan: seq<Planned>, item: Replacement) {
    exists p :: p in plan && p.frameRef == item.key && p.newPath == item.destination
  }

  lemma PlanOneMore(ids: Digests, t: Tables, items: seq<Replacement>)
    requires Chained(ids, t) && items != [] && items[|items| - 1].key in t.artifacts
    ensures var before, plan, item := PlanOf(ids, t, items[..|items| - 1]), PlanOf(ids, t, items), items[|items| - 1];
            if PathOf(ids, t, item.key) == Some(item.destination) then plan == before
            else |plan| == |before| + 1 && before <= plan && plan[|before|].frameRef == item.key
                 && plan[|before|].newPath == item.destination
  {
    ChainsPass(ids, t, items[|items| - 1].key);
  }

  /** The plan has an entry for each item whose frame is elsewhere, and no others. */
  lemma {:induction false} PlanHoldsTheItems(ids: Digests, t: Tables, items: seq<Replacement>)
    requires Chained(ids, t) && forall item | item in items :: item.key in t.artifacts
    ensures forall item | item in items && PathOf(ids, t, item.key) != Some(item.destination) ::
              Plans(PlanOf(ids, t, items), item)
    ensures forall p | p in PlanOf(ids, t, items) :: OfAnItem(items, p)
  {
    if items != [] {
      var init, last := items[..|items| - 1], items[|items| - 1];
      assert items == init + [last];
      PlanHoldsTheItems(ids, t, init);
      PlanOneMore(ids, t, items);
      var plan, before := PlanOf(ids, t, items), PlanOf(ids, t, init);
      forall item | item in items && PathOf(ids, t, item.key) != Some(item.destination) ensures Plans(plan, item) {
        if item in init { LargerPlan(before, plan, item); }
      }
      forall p | p in plan ensures OfAnItem(items, p) {
        if p in before { LargerItems(init, items, p); }
      }
    }
  }

  ghost predicate OfAnItem(items: seq<Replacement>, p: Planned) {
    exists item :: item in items && p.frameRef == item.key && p.newPath == item.destination
  }

  lemma LargerPlan(before: seq<Planned>, plan: seq<Planned>, item: Replacement)
    requires before <= plan && Plans(before, item)
    ensures Plans(plan, item)
  {
    var p :| p in before && p.frameRef == item.key && p.newPath == item.destination;
    assert p in plan;
  }

  lemma LargerItems(init: seq<Replacement>, items: seq<Replacement>, p: Planned)
    requires init <= items && OfAnItem(init, p)
    ensures OfAnItem(items, p)
  {
    var item :| item in init && p.frameRef == item.key && p.newPath == item.destination;
    assert item in items;
  }

  /** The frame is at the path, by a row that carries the note if it was not there before. */
  ghost predicate Arrived(ids: Digests, t: Tables, t': Tables, f: string, destination: string, note: Note) {
    && PathOf(ids, t', f) == Some(destination)
    && (if PathOf(ids, t, f) == Some(destination) then RowsOf(t', f) == RowsOf(t, f)
        else |RowsOf(t', f)| == |RowsOf(t, f)| + 1 && RowsOf(t, f) <= RowsOf(t', f)
             && RowsOf(t', f)[|RowsOf(t, f)|].move.note == note)
  }

  /** Each item's frame is at its destination, and no other frame has moved. */
  ghost predicate AllArrived(ids: Digests, t: Tables, t': Tables, items: seq<Replacement>, note: Note) {
    && t'.artifacts == t.artifacts && t'.retirements == t.retirements
    && (forall item | item in items :: Arrived(ids, t, t', item.key, item.destination, note))
    && (forall f | (forall item | item in items :: item.key != f) :: RowsOf(t', f) == RowsOf(t, f))
  }

  lemma AllMayMove(ids: Digests, t: Tables, items: seq<Replacement>, files: Files)
    requires Audited(ids, t) && forall item | item in items :: MayMove(ids, t, item, files)
    requires forall i, j | 0 <= i < j < |items| :: items[i].destination != items[j].destination
    ensures Plannable(ids, t, items, files)
  {
    forall i | 0 <= i < |items| ensures Movable(ids, t, items[i], files) {
      MovableIffMayMove(ids, t, items[i], files);
    }
  }

  lemma PlanArrives(ids: Digests, t: Tables, t': Tables, items: seq<Replacement>, plan: seq<Planned>, note: Note)
    requires Audited(ids, t) && SortedMapping(items) && (forall item | item in items :: item.key in t.artifacts)
    requires plan == PlanOf(ids, t, items) && forall p | p in plan :: p.oldPath != p.newPath
    requires Chained(ids, t') && t'.artifacts == t.artifacts && t'.retirements == t.retirements
    requires MovedAsPlanned(ids, t, t', plan, note)
    ensures AllArrived(ids, t, t', items, note)
  {
    PlanHoldsTheItems(ids, t, items);
    forall item | item in items ensures Arrived(ids, t, t', item.key, item.destination, note) {
      ItemArrives(ids, t, t', items, plan, item, note);
    }
  }

  /**
   * A relocation on its own with a good note, of frames that all may move to different destinations, is
   * written: each frame is then at its destination, and no other frame has moved.
   */
  lemma RelocatingMovesToTheDestinations(ids: Digests, t: Tables, items: seq<Replacement>, files: Files, note: Note)
    requires Audited(ids, t) && InjectiveMoves(ids) && SortedMapping(items) && SaysWhyAndWho(note)
    requires forall item | item in items :: MayMove(ids, t, item, files)
    requires forall i, j | 0 <= i < j < |items| :: items[i].destination != items[j].destination
    ensures AllArrived(ids, t, AfterCall(ids, t, RelocateCall(items, files, note)), items, note)
  {
    var plan := PlanOf(ids, t, items);
    AllMayMove(ids, t, items, files);
    PlannedIsWritten(ids, t, items, files, note);
    PlansFit(ids, t, items, files);
    MovesKeepChains(ids, t, plan, note);
    MovesDoWhatIsPlanned(ids, t, plan, note);
    PlanArrives(ids, t, CommitMoves(ids, t, plan, note).value, items, plan, note);
  }

  lemma PlannedItemArrives(ids: Digests, t: Tables, t': Tables, plan: seq<Planned>, item: Replacement, note: Note)
    requires Chained(ids, t) && Chained(ids, t') && t'.artifacts == t.artifacts
    requires MovedAsPlanned(ids, t, t', plan, note)
    requires item.key in t.artifacts && PathOf(ids, t, item.key) != Some(item.destination) && Plans(plan, item)
    ensures Arrived(ids, t, t', item.key, item.destination, note)
  {
    ChainsPass(ids, t', item.key);
    var p :| p in plan && p.frameRef == item.key && p.newPath == item.destination;
    assert Moved(ids, t, t', p, note);
  }

  lemma NoEntryAtItsPlace(ids: Digests, t: Tables, t': Tables, items: seq<Replacement>, plan: seq<Planned>,
                          item: Replacement, p: Planned, note: Note)
    requires SortedMapping(items) && item in items && OfAnItem(items, p) && p.oldPath != p.newPath
    requires Chained(ids, t) && p in plan && MovedAsPlanned(ids, t, t', plan, note)
    requires PathOf(ids, t, item.key) == Some(item.destination)
    ensures p.frameRef != item.key
  {
    assert Moved(ids, t, t', p, note);
    ChainsPass(ids, t, p.frameRef);
    var other :| other in items && p.frameRef == other.key && p.newPath == other.destination;
    if other.key == item.key { KeysAreDistinct(items, item, other); }
  }

  lemma ItemArrives(ids: Digests, t: Tables, t': Tables, items: seq<Replacement>, plan: seq<Planned>,
                    item: Replacement, note: Note)
    requires SortedMapping(items) && item in items && item.key in t.artifacts
    requires Chained(ids, t) && Chained(ids, t') && t'.artifacts == t.artifacts
    requires MovedAsPlanned(ids, t, t', plan, note)
    requires PathOf(ids, t, item.key) != Some(item.destination) ==> Plans(plan, item)
    requires forall p | p in plan :: p.oldPath != p.newPath && OfAnItem(items, p)
    ensures Arrived(ids, t, t', item.key, item.destination, note)
  {
    if PathOf(ids, t, item.key) != Some(item.destination) {
      PlannedItemArrives(ids, t, t', plan, item, note);
    } else {
      forall p | p in plan ensures p.frameRef != item.key {
        NoEntryAtItsPlace(ids, t, t', items, plan, item, p, note);
      }
      assert RowsOf(t', item.key) == RowsOf(t, item.key);
    }
  }

  /** And otherwise nothing is written. */
  lemma OtherRelocationsWriteNothing(ids: Digests, t: Tables, items: seq<Replacement>, files: Files, note: Note)
    requires Audited(ids, t)
    requires !SaysWhyAndWho(note) || (exists item :: item in items && !MayMove(ids, t, item, files))
             || exists i, j :: 0 <= i < j < |items| && items[i].destination == items[j].destination
    ensures AfterCall(ids, t, RelocateCall(items, files, note)) == t
  {
    if item :| item in items && !MayMove(ids, t, item, files) {
      MovableIffMayMove(ids, t, item, files);
      var i :| 0 <= i < |items| && items[i] == item;
      assert !Movable(ids, t, items[i], files);
    }
  }

  /* ---------- retiring ---------- */

  ghost predicate InjectiveFarewells(ids: Digests) {
    forall v, w :: ids.farewell(v) == ids.farewell(w) ==> v == w
  }

  /** The retirement says what the frame is, where it is, and who retired it. */
  predicate SaysFarewell(a: Artifact, path: string, note: Note, w: Farewell) {
    w.frameRef == a.frameRef && w.content == a.content && w.bytes == a.bytes && w.path == path && w.note == note
  }

  /** The frame is registered and was never retired, and its file is where the frame is. */
  predicate MayRetire(ids: Digests, t: Tables, f: string, files: Files) {
    && f in t.artifacts && f !in t.retirements
    && match PathOf(ids, t, f)
       case Some(path) => files.verifies(path, t.artifacts[f].content, t.artifacts[f].bytes)
       case None => false
  }

  /** The tables have one more retirement, which says farewell to the frame; nothing else has changed. */
  predicate RetiredBy(ids: Digests, t: Tables, f: string, note: Note, t': Tables) {
    && f in t.artifacts && f in t'.retirements && t' == t.(retirements := t.retirements[f := t'.retirements[f]])
    && PathOf(ids, t, f).Some?
    && SaysFarewell(t.artifacts[f], PathOf(ids, t, f).value, note, t'.retirements[f].farewell)
  }

  /**
   * A retirement on its own is written exactly for a registered frame that was never retired, with a good
   * note and with its file at its path before and during the call.
   */
  lemma RetiringRecordsTheFrame(ids: Digests, t: Tables, f: string, before: Files, during: Files, note: Note)
    requires Audited(ids, t) && InjectiveFarewells(ids)
    ensures var t' := AfterCall(ids, t, RetireCall(f, before, during, note));
            if SaysWhyAndWho(note) && MayRetire(ids, t, f, before) && MayRetire(ids, t, f, during)
            then RetiredBy(ids, t, f, note, t') else t' == t
  {
    RetirableIffMayRetire(ids, t, f, before);
    if MayRetire(ids, t, f, before) { FarewellIsWritten(ids, t, f, during, note); }
  }

  lemma RetirableIffMayRetire(ids: Digests, t: Tables, f: string, files: Files)
    requires Audited(ids, t)
    ensures Retirable(ids, t, f, files) <==> MayRetire(ids, t, f, files)
  {
    if f in t.artifacts { ChainsPass(ids, t, f); }
    if f in t.retirements { RetirementAuditIff(ids, t, f); }
  }

  lemma FarewellIsWritten(ids: Digests, t: Tables, f: string, files: Files, note: Note)
    requires Audited(ids, t) && InjectiveFarewells(ids) && f in t.artifacts && f !in t.retirements
    ensures Effective(ids, t, f).Ok?
    ensures var done := CommitFarewell(ids, t, FarewellOf(ids, t, f, note), files);
            && (done.Ok? <==> MayRetire(ids, t, f, files)) && (done.Ok? ==> RetiredBy(ids, t, f, note, done.value))
  {
    ChainsPass(ids, t, f);
    NoFarewellYet(ids, t, FarewellOf(ids, t, f, note));
  }

  /** Different frames have different contents, so no retirement of another frame has the same digest. */
  lemma NoFarewellYet(ids: Digests, t: Tables, w: Farewell)
    requires Audited(ids, t) && InjectiveFarewells(ids) && w.frameRef in t.artifacts && w.frameRef !in t.retirements
    requires w.content == t.artifacts[w.frameRef].content
    ensures forall g | g in t.retirements :: t.retirements[g].id != ids.farewell(w)
  {
    forall g | g in t.retirements ensures t.retirements[g].id != ids.farewell(w) {
      assert g in t.artifacts && t.retirements[g].farewell.content == t.artifacts[g].content;
    }
  }

  /* ---------- calls and steps ---------- */

  lemma RunOfTwo(ids: Digests, w: World, read: Step, write: Step)
    ensures Run(ids, w, [read, write]) == Do(ids, Do(ids, w, read), write)
  {
    assert [read, write][..1] == [read] && [read][..0] == [];
    assert Run(ids, w, [read]) == Do(ids, w, read);
  }

  lemma RelocateCallIsTwoSteps(ids: Digests, w: World, items: seq<Replacement>, files: Files, note: Note)
    requires SortedMapping(items) && GoodNote(note) && Plannable(ids, w.tables, items, files)
    ensures Run(ids, w, [ReadForRelocation(items, files), Relocate(|w.plans|, note)]).tables
            == AfterCall(ids, w.tables, RelocateCall(items, files, note))
  {
    RunOfTwo(ids, w, ReadForRelocation(items, files), Relocate(|w.plans|, note));
  }

  lemma RetireCallIsTwoSteps(ids: Digests, w: World, f: string, before: Files, during: Files, note: Note)
    requires GoodNote(note) && Retirable(ids, w.tables, f, before)
    ensures Run(ids, w, [ReadForRetirement(f, before, note), Retire(|w.farewells|, during)]).tables
            == AfterCall(ids, w.tables, RetireCall(f, before, during, note))
  {
    RunOfTwo(ids, w, ReadForRetirement(f, before, note), Retire(|w.farewells|, during));
  }

  lemma RegisterCallIsAStep(ids: Digests, w: World, a: Artifact)
    ensures Run(ids, w, [Register(a)]).tables == AfterCall(ids, w.tables, RegisterCall(a))
  {
    assert [Register(a)][..0] == [];
  }

  /** A call with nobody in between is one step of a run, or a reading step and a writing step. */
  lemma CallsAreSteps(ids: Digests, w: World, c: Call)
    ensures exists steps :: |steps| <= 2 && Run(ids, w, steps).tables == AfterCall(ids, w.tables, c)
  {
    var steps: seq<Step> := [];
    match c {
      case RegisterCall(a) =>
        steps := [Register(a)];
        RegisterCallIsAStep(ids, w, a);
      case RelocateCall(items, files, note) =>
        if SortedMapping(items) && GoodNote(note) && Plannable(ids, w.tables, items, files) {
          steps := [ReadForRelocation(items, files), Relocate(|w.plans|, note)];
          RelocateCallIsTwoSteps(ids, w, items, files, note);
        }
      case RetireCall(frameRef, before, during, note) =>
        if GoodNote(note) && Retirable(ids, w.tables, frameRef, before) {
          steps := [ReadForRetirement(frameRef, before, note), Retire(|w.farewells|, during)];
          RetireCallIsTwoSteps(ids, w, frameRef, before, during, note);
        }
    }
    assert Run(ids, w, steps).tables == AfterCall(ids, w.tables, c);
  }
}
