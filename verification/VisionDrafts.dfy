/**
 * The causal gate of vision drafts. A map's anchored draft is trusted when no effective conflict and
 * no invalidation stands against it and a confirmed observation supports it; with a cutoff, only
 * evidence up to it should matter.
 */
module VisionDrafts {
  import opened Wrappers
  import RaybetFinal

  type Side = RaybetFinal.Side

  /** How stored text is read: the digest of a draft's canonical text, and the moment a time denotes, if any. */
  datatype Reader = Reader(hash: (seq<int>, seq<int>) -> string, clock: string -> Option<int>) {
    ghost predicate Injective() {
      forall r, d, r', d' :: hash(r, d) == hash(r', d') ==> r == r' && d == d'
    }
  }

  datatype AnchorStatus = Anchored | Conflicted | OtherStatus

  /** Hero lists are absent when their text is not a list of integers; sides when they name neither team. */
  datatype Anchor = Anchor(
    mapNumber: int,
    draftHash: string,
    radiant: Option<seq<int>>,
    dire: Option<seq<int>>,
    side: Option<Side>,
    sideAnchoredAt: string,
    hasSideFrame: bool,
    anchoredAt: string,
    status: AnchorStatus,
    conflictAt: string)

  datatype Conflict = Conflict(mapNumber: int, capturedAt: string, draftHash: string, side: Option<Side>)

  datatype Observation = Observation(
    mapNumber: Option<int>,
    capturedAt: string,
    frame: string,
    confirmed: bool,
    radiant: Option<seq<int>>,
    dire: Option<seq<int>>,
    side: Option<Side>)

  datatype Invalidation = Invalidation(capturedAt: string, frame: string)

  /** The rows of one match. */
  datatype Evidence = Evidence(
    anchors: seq<Anchor>,
    conflicts: seq<Conflict>,
    observations: seq<Observation>,
    invalidations: seq<Invalidation>)

  datatype VisionDraft = VisionDraft(radiant: set<int>, dire: set<int>, side: Side)

  /** The members of a list that satisfy a query, in order. */
  function Select<T(!new)>(items: seq<T>, keep: T -> bool): (r: seq<T>)
    ensures forall x :: x in r <==> x in items && keep(x)
  {
    if items == [] then []
    else
      var init, last := items[..|items| - 1], items[|items| - 1];
      assert items == init + [last];
      Select(init, keep) + if keep(last) then [last] else []
  }

  /** Two lists of five heroes, all ten positive and different. */
  predicate IsDraft(radiant: seq<int>, dire: seq<int>) {
    && |radiant| == 5 && |dire| == 5
    && (forall i | 0 <= i < 10 :: (radiant + dire)[i] > 0)
    && (forall i, j | 0 <= i < j < 10 :: (radiant + dire)[i] != (radiant + dire)[j])
  }

  /** The digest and the two hero sets of a draft. */
  datatype Identity = Identity(digest: string, radiant: set<int>, dire: set<int>)

  function DraftIdentity(reader: Reader, radiant: Option<seq<int>>, dire: Option<seq<int>>): Option<Identity> {
    if radiant.Some? && dire.Some? && IsDraft(radiant.value, dire.value) then
      Some(Identity(reader.hash(radiant.value, dire.value),
                    set h | h in radiant.value, set h | h in dire.value))
    else None
  }

  /* ---------- when a draft is shown ---------- */

  predicate UpTo(time: int, cutoff: Option<int>) {
    cutoff.Some? ==> time <= cutoff.value
  }

  /** The anchor and its team sides are known, in this order, and by the cutoff. */
  predicate WellAnchored(reader: Reader, a: Anchor, cutoff: Option<int>) {
    var at, sideAt := reader.clock(a.anchoredAt), reader.clock(a.sideAnchoredAt);
    && a.side.Some? && a.hasSideFrame && a.status != OtherStatus
    && at.Some? && sideAt.Some? && at.value <= sideAt.value
    && UpTo(at.value, cutoff) && UpTo(sideAt.value, cutoff)
  }

  /** The conflicts of a map, in order. */
  function OfMap(conflicts: seq<Conflict>, mapNumber: int): seq<Conflict> {
    if conflicts == [] then []
    else
      var last := conflicts[|conflicts| - 1];
      OfMap(conflicts[..|conflicts| - 1], mapNumber) + if last.mapNumber == mapNumber then [last] else []
  }

  /** The conflict contradicts the anchor: it shows another draft, or the sides the other way round. */
  predicate Intrinsic(a: Anchor, c: Conflict) {
    c.draftHash != a.draftHash || (a.side.Some? && c.side.Some? && c.side != a.side)
  }

  /** The conflicts that count: those that contradict the anchor, or all when none does. */
  function Effective(a: Anchor, conflicts: seq<Conflict>): seq<Conflict> {
    var intrinsic := Select(conflicts, (c: Conflict) => Intrinsic(a, c));
    if intrinsic != [] then intrinsic else conflicts
  }

  /** A conflict at this time stands against the draft: always without a cutoff, else unless it is known to be later. */
  predicate Stands(reader: Reader, time: string, cutoff: Option<int>) {
    cutoff.None? || reader.clock(time).None? || reader.clock(time).value <= cutoff.value
  }

  predicate Hidden(reader: Reader, a: Anchor, conflicts: seq<Conflict>, cutoff: Option<int>) {
    (a.status == Conflicted && Stands(reader, a.conflictAt, cutoff))
    || exists c | c in Effective(a, conflicts) :: Stands(reader, c.capturedAt, cutoff)
  }

  predicate SameFrame(o: Observation, v: Invalidation) {
    o.capturedAt == v.capturedAt && o.frame == v.frame
  }

  /** The confirmed observations of a map that are not invalidated. */
  function Trusted(e: Evidence, mapNumber: int): seq<Observation> {
    Select(e.observations, (o: Observation) =>
      o.mapNumber == Some(mapNumber) && o.confirmed && !exists v | v in e.invalidations :: SameFrame(o, v))
  }

  /** The invalidations of a map's observations. */
  function InvalidationsOf(e: Evidence, mapNumber: int): seq<Invalidation> {
    Select(e.invalidations, (v: Invalidation) =>
      exists o | o in e.observations :: SameFrame(o, v) && o.mapNumber == Some(mapNumber))
  }

  predicate Undamaged(reader: Reader, e: Evidence, mapNumber: int) {
    forall v | v in InvalidationsOf(e, mapNumber) :: reader.clock(v.capturedAt).Some?
  }

  /** The observation sees the anchored draft on the anchored sides, after the sides were known and by the cutoff. */
  predicate Sees(reader: Reader, a: Anchor, o: Observation, cutoff: Option<int>) {
    var at, sideAt := reader.clock(o.capturedAt), reader.clock(a.sideAnchoredAt);
    var seen := DraftIdentity(reader, o.radiant, o.dire);
    && at.Some? && sideAt.Some? && sideAt.value <= at.value && UpTo(at.value, cutoff)
    && seen.Some? && seen.value.digest == a.draftHash && o.side == a.side
  }

  /** Every invalidation of the map by the cutoff is earlier than the observation. */
  predicate Outlives(reader: Reader, e: Evidence, mapNumber: int, o: Observation, cutoff: Option<int>) {
    forall v | v in InvalidationsOf(e, mapNumber) && reader.clock(v.capturedAt).Some?
               && UpTo(reader.clock(v.capturedAt).value, cutoff) ::
      reader.clock(o.capturedAt).Some? && reader.clock(v.capturedAt).value < reader.clock(o.capturedAt).value
  }

  ghost predicate Supported(reader: Reader, e: Evidence, a: Anchor, cutoff: Option<int>) {
    exists o :: o in Trusted(e, a.mapNumber) && Sees(reader, a, o, cutoff)
        && Outlives(reader, e, a.mapNumber, o, cutoff)
  }

  /** The anchored draft names its own digest. */
  predicate Consistent(reader: Reader, a: Anchor) {
    var identity := DraftIdentity(reader, a.radiant, a.dire);
    identity.Some? && identity.value.digest == a.draftHash
  }

  ghost predicate Shown(reader: Reader, e: Evidence, a: Anchor, cutoff: Option<int>) {
    && WellAnchored(reader, a, cutoff)
    && !Hidden(reader, a, OfMap(e.conflicts, a.mapNumber), cutoff)
    && Consistent(reader, a)
    && Undamaged(reader, e, a.mapNumber)
    && Supported(reader, e, a, cutoff)
  }

  function DraftOf(reader: Reader, a: Anchor): VisionDraft
    requires Consistent(reader, a) && a.side.Some?
  {
    var identity := DraftIdentity(reader, a.radiant, a.dire).value;
    VisionDraft(identity.radiant, identity.dire, a.side.value)
  }

  /** A cutoff per map. A cutoff that denotes no moment shows nothing. */
  type Cutoffs = map<int, Option<int>>

  ghost predicate ShownAt(reader: Reader, e: Evidence, cutoffs: Cutoffs, a: Anchor) {
    if a.mapNumber in cutoffs
    then cutoffs[a.mapNumber].Some? && Shown(reader, e, a, cutoffs[a.mapNumber])
    else Shown(reader, e, a, None)
  }

  /* ---------- the loops ---------- */

  /** The latest invalidation by the cutoff. */
  ghost predicate IsLatest(reader: Reader, vs: seq<Invalidation>, cutoff: Option<int>, latest: Option<int>) {
    && (forall v | v in vs && reader.clock(v.capturedAt).Some? && UpTo(reader.clock(v.capturedAt).value, cutoff) ::
          latest.Some? && reader.clock(v.capturedAt).value <= latest.value)
    && (latest.Some? ==> exists v :: v in vs && reader.clock(v.capturedAt) == latest && UpTo(latest.value, cutoff))
  }

  method LatestInvalidation(reader: Reader, vs: seq<Invalidation>, cutoff: Option<int>)
    returns (damaged: bool, latest: Option<int>)
    ensures damaged <==> exists v :: v in vs && reader.clock(v.capturedAt).None?
    ensures !damaged ==> IsLatest(reader, vs, cutoff, latest)
  {
    damaged, latest := false, None;
    for i := 0 to |vs|
      invariant !damaged && forall v | v in vs[..i] :: reader.clock(v.capturedAt).Some?
      invariant IsLatest(reader, vs[..i], cutoff, latest)
    {
      assert vs[..i + 1] == vs[..i] + [vs[i]];
      var capturedAt := reader.clock(vs[i].capturedAt);
      if capturedAt.None? {
        assert vs[i] in vs;
        return true, None;
      }
      if UpTo(capturedAt.value, cutoff) && (latest.None? || latest.value < capturedAt.value) { latest := capturedAt; }
    }
    assert vs[..|vs|] == vs;
  }

  /** Whether an anchor's draft is shown. */
  method PassesGate(reader: Reader, e: Evidence, conflicts: seq<Conflict>, a: Anchor, cutoff: Option<int>)
    returns (shown: bool)
    requires conflicts == OfMap(e.conflicts, a.mapNumber)
    ensures shown <==> Shown(reader, e, a, cutoff)
  {
    if !WellAnchored(reader, a, cutoff) { return false; }
    if a.status == Conflicted && Stands(reader, a.conflictAt, cutoff) { return false; }
    var standing := SomeConflictStands(reader, Effective(a, conflicts), cutoff);
    if standing { return false; }
    if !Consistent(reader, a) { return false; }
    var damaged, latest := LatestInvalidation(reader, InvalidationsOf(e, a.mapNumber), cutoff);
    if damaged { return false; }
    shown := SomeObservationSupports(reader, e, a, cutoff, latest);
  }

  method SomeConflictStands(reader: Reader, effective: seq<Conflict>, cutoff: Option<int>) returns (standing: bool)
    ensures standing <==> exists c | c in effective :: Stands(reader, c.capturedAt, cutoff)
  {
    for i := 0 to |effective|
      invariant forall c | c in effective[..i] :: !Stands(reader, c.capturedAt, cutoff)
    {
      if Stands(reader, effective[i].capturedAt, cutoff) {
        assert effective[i] in effective;
        return true;
      }
    }
    assert effective[..|effective|] == effective;
    standing := false;
  }

  /** The search for an observation that is later than the latest invalidation. */
  method SomeObservationSupports(reader: Reader, e: Evidence, a: Anchor, cutoff: Option<int>, latest: Option<int>)
    returns (supported: bool)
    requires IsLatest(reader, InvalidationsOf(e, a.mapNumber), cutoff, latest)
    ensures supported <==> Supported(reader, e, a, cutoff)
  {
    var observations := Trusted(e, a.mapNumber);
    for i := 0 to |observations|
      invariant forall o | o in observations[..i] ::
                  !(Sees(reader, a, o, cutoff) && Outlives(reader, e, a.mapNumber, o, cutoff))
    {
      var o := observations[i];
      var capturedAt := reader.clock(o.capturedAt);
      if capturedAt.Some? { LaterThanLatest(reader, e, a.mapNumber, o, cutoff, latest); }
      if Sees(reader, a, o, cutoff) && (latest.None? || latest.value < capturedAt.value) {
        assert o in observations;
        return true;
      }
    }
    assert observations[..|observations|] == observations;
    supported := false;
  }

  lemma LaterThanLatest(reader: Reader, e: Evidence, mapNumber: int, o: Observation, cutoff: Option<int>,
                        latest: Option<int>)
    requires IsLatest(reader, InvalidationsOf(e, mapNumber), cutoff, latest) && reader.clock(o.capturedAt).Some?
    ensures Outlives(reader, e, mapNumber, o, cutoff)
            <==> latest.None? || latest.value < reader.clock(o.capturedAt).value
  {
  }

  function RowsOf(rows: map<int, seq<Conflict>>, mapNumber: int): seq<Conflict> {
    if mapNumber in rows then rows[mapNumber] else []
  }

  method GroupConflicts(e: Evidence) returns (rows: map<int, seq<Conflict>>)
    ensures forall m :: RowsOf(rows, m) == OfMap(e.conflicts, m)
  {
    rows := map[];
    for i := 0 to |e.conflicts|
      invariant forall m :: RowsOf(rows, m) == OfMap(e.conflicts[..i], m)
    {
      var conflict := e.conflicts[i];
      assert e.conflicts[..i + 1][..i] == e.conflicts[..i];
      rows := rows[conflict.mapNumber := RowsOf(rows, conflict.mapNumber) + [conflict]];
    }
    assert e.conflicts[..|e.conflicts|] == e.conflicts;
  }

  /** The draft an anchor contributes, if any. */
  ghost function Gate(reader: Reader, e: Evidence, cutoffs: Cutoffs): Anchor -> Option<VisionDraft> {
    (a: Anchor) => if ShownAt(reader, e, cutoffs, a) then Some(DraftOf(reader, a)) else None
  }

  ghost predicate Contributed(gate: Anchor -> Option<VisionDraft>, anchors: seq<Anchor>, m: int, d: VisionDraft) {
    exists a :: a in anchors && a.mapNumber == m && gate(a) == Some(d)
  }

  /** `drafts` holds, for each map, what its anchors contribute, and no map without any. */
  ghost predicate Lists(gate: Anchor -> Option<VisionDraft>, anchors: seq<Anchor>, drafts: map<int, set<VisionDraft>>) {
    && (forall m, d :: m in drafts && d in drafts[m] <==> Contributed(gate, anchors, m, d))
    && (forall m | m in drafts :: drafts[m] != {})
  }

  function Added(drafts: map<int, set<VisionDraft>>, m: int, d: Option<VisionDraft>): map<int, set<VisionDraft>> {
    if d.None? then drafts else drafts[m := (if m in drafts then drafts[m] else {}) + {d.value}]
  }

  lemma ListsOneMore(gate: Anchor -> Option<VisionDraft>, anchors: seq<Anchor>, drafts: map<int, set<VisionDraft>>,
                     a: Anchor)
    requires Lists(gate, anchors, drafts)
    ensures Lists(gate, anchors + [a], Added(drafts, a.mapNumber, gate(a)))
  {
    var more := Added(drafts, a.mapNumber, gate(a));
    forall m, d ensures m in more && d in more[m] <==> Contributed(gate, anchors + [a], m, d) {
      ContributedOneMore(gate, anchors, a, m, d);
    }
  }

  lemma ContributedOneMore(gate: Anchor -> Option<VisionDraft>, anchors: seq<Anchor>, a: Anchor, m: int, d: VisionDraft)
    ensures Contributed(gate, anchors + [a], m, d) <==>
              Contributed(gate, anchors, m, d) || (a.mapNumber == m && gate(a) == Some(d))
  {
    assert forall b :: b in anchors + [a] <==> b in anchors || b == a;
  }

  /** The drafts of a match: for each map, those of its anchors that are shown. */
  method VisionDrafts(reader: Reader, e: Evidence, cutoffs: Cutoffs) returns (drafts: map<int, set<VisionDraft>>)
    ensures Lists(Gate(reader, e, cutoffs), e.anchors, drafts)
  {
    drafts := map[];
    var conflictRows := GroupConflicts(e);
    for i := 0 to |e.anchors|
      invariant Lists(Gate(reader, e, cutoffs), e.anchors[..i], drafts)
    {
      var a := e.anchors[i];
      var draft := ShownDraft(reader, e, conflictRows, cutoffs, a);
      ListsOneMore(Gate(reader, e, cutoffs), e.anchors[..i], drafts, a);
      assert e.anchors[..i + 1] == e.anchors[..i] + [a];
      drafts := Added(drafts, a.mapNumber, draft);
    }
    assert e.anchors[..|e.anchors|] == e.anchors;
  }

  method ShownDraft(reader: Reader, e: Evidence, conflictRows: map<int, seq<Conflict>>, cutoffs: Cutoffs, a: Anchor)
    returns (draft: Option<VisionDraft>)
    requires RowsOf(conflictRows, a.mapNumber) == OfMap(e.conflicts, a.mapNumber)
    ensures draft == Gate(reader, e, cutoffs)(a)
  {
    if a.mapNumber in cutoffs && cutoffs[a.mapNumber].None? { return None; }
    var cutoff := if a.mapNumber in cutoffs then cutoffs[a.mapNumber] else None;
    var shown := PassesGate(reader, e, RowsOf(conflictRows, a.mapNumber), a, cutoff);
    draft := if shown then Some(DraftOf(reader, a)) else None;
  }
}
