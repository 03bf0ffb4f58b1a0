/** What the draft gate promises about time, and where conflicts escape it. */
module DraftCausality {
  import opened Wrappers
  import opened Ordering
  import RaybetFinal
  import opened VisionDrafts

  /* ---------- observations and invalidations ---------- */

  predicate By(reader: Reader, time: string, cutoff: int) {
    reader.clock(time).Some? && reader.clock(time).value <= cutoff
  }

  /** The two bodies of evidence hold the same observations of a map, and the same invalidations, up to the cutoff. */
  ghost predicate AgreeUpTo(reader: Reader, e: Evidence, e': Evidence, mapNumber: int, cutoff: int) {
    && (forall o: Observation | By(reader, o.capturedAt, cutoff) && o.mapNumber == Some(mapNumber) ::
          o in e.observations <==> o in e'.observations)
    && (forall v: Invalidation | By(reader, v.capturedAt, cutoff) :: v in e.invalidations <==> v in e'.invalidations)
  }

  lemma EarlyEvidenceAgrees(reader: Reader, e: Evidence, e': Evidence, mapNumber: int, cutoff: int)
    requires AgreeUpTo(reader, e, e', mapNumber, cutoff)
    ensures forall o: Observation | By(reader, o.capturedAt, cutoff) ::
              o in Trusted(e, mapNumber) ==> o in Trusted(e', mapNumber)
    ensures forall v: Invalidation | By(reader, v.capturedAt, cutoff) ::
              v in InvalidationsOf(e, mapNumber) ==> v in InvalidationsOf(e', mapNumber)
  {
    forall o: Observation | By(reader, o.capturedAt, cutoff) && o in Trusted(e, mapNumber)
      ensures o in Trusted(e', mapNumber)
    {
      forall v | v in e'.invalidations ensures !SameFrame(o, v) {
        assert By(reader, v.capturedAt, cutoff) ==> v in e.invalidations;
      }
    }
    forall v: Invalidation | By(reader, v.capturedAt, cutoff) && v in InvalidationsOf(e, mapNumber)
      ensures v in InvalidationsOf(e', mapNumber)
    {
      var o :| o in e.observations && SameFrame(o, v) && o.mapNumber == Some(mapNumber);
      assert o in e'.observations;
    }
  }

  lemma EarlyEvidenceSupports(reader: Reader, e: Evidence, e': Evidence, a: Anchor, cutoff: int)
    requires AgreeUpTo(reader, e, e', a.mapNumber, cutoff)
    requires Supported(reader, e, a, Some(cutoff))
    ensures Supported(reader, e', a, Some(cutoff))
  {
    EarlyEvidenceAgrees(reader, e, e', a.mapNumber, cutoff);
    EarlyEvidenceAgrees(reader, e', e, a.mapNumber, cutoff);
    var o :| o in Trusted(e, a.mapNumber) && Sees(reader, a, o, Some(cutoff))
        && Outlives(reader, e, a.mapNumber, o, Some(cutoff));
    assert By(reader, o.capturedAt, cutoff);
    forall v | v in InvalidationsOf(e', a.mapNumber) && By(reader, v.capturedAt, cutoff)
      ensures reader.clock(v.capturedAt).value < reader.clock(o.capturedAt).value
    {
      assert v in InvalidationsOf(e, a.mapNumber) && UpTo(reader.clock(v.capturedAt).value, Some(cutoff));
    }
  }

  /**
   * Observations and invalidations captured after the cutoff have no influence: whatever is added
   * or removed there, as long as no invalidation of the map has a damaged time, the anchor's draft
   * is shown or not as before.
   */
  lemma NoInfluenceAfterCutoff(reader: Reader, e: Evidence, e': Evidence, a: Anchor, cutoff: int)
    requires e'.conflicts == e.conflicts && AgreeUpTo(reader, e, e', a.mapNumber, cutoff)
    requires Undamaged(reader, e, a.mapNumber) && Undamaged(reader, e', a.mapNumber)
    ensures Shown(reader, e', a, Some(cutoff)) <==> Shown(reader, e, a, Some(cutoff))
  {
    if Supported(reader, e, a, Some(cutoff)) { EarlyEvidenceSupports(reader, e, e', a, cutoff); }
    if Supported(reader, e', a, Some(cutoff)) { EarlyEvidenceSupports(reader, e', e, a, cutoff); }
  }

  /** So the drafts of that map are the same, whatever else the cutoffs are. */
  lemma DraftsOfAMapAreCausal(reader: Reader, e: Evidence, e': Evidence, cutoffs: Cutoffs, m: int,
                              drafts: map<int, set<VisionDraft>>, drafts': map<int, set<VisionDraft>>)
    requires m in cutoffs && cutoffs[m].Some? && AgreeUpTo(reader, e, e', m, cutoffs[m].value)
    requires e'.anchors == e.anchors && e'.conflicts == e.conflicts
    requires Undamaged(reader, e, m) && Undamaged(reader, e', m)
    requires Lists(Gate(reader, e, cutoffs), e.anchors, drafts) && Lists(Gate(reader, e', cutoffs), e.anchors, drafts')
    ensures m in drafts <==> m in drafts'
    ensures m in drafts ==> drafts'[m] == drafts[m]
  {
    var gate, gate' := Gate(reader, e, cutoffs), Gate(reader, e', cutoffs);
    forall a: Anchor | a.mapNumber == m ensures gate'(a) == gate(a) {
      NoInfluenceAfterCutoff(reader, e, e', a, cutoffs[m].value);
    }
    SameGatesSameDrafts(gate, gate', e.anchors, m, drafts, drafts');
  }

  lemma SameGatesSameDrafts(gate: Anchor -> Option<VisionDraft>, gate': Anchor -> Option<VisionDraft>,
                            anchors: seq<Anchor>, m: int,
                            drafts: map<int, set<VisionDraft>>, drafts': map<int, set<VisionDraft>>)
    requires forall a: Anchor | a.mapNumber == m :: gate'(a) == gate(a)
    requires Lists(gate, anchors, drafts) && Lists(gate', anchors, drafts')
    ensures m in drafts <==> m in drafts'
    ensures m in drafts ==> drafts'[m] == drafts[m]
  {
    forall d ensures (m in drafts && d in drafts[m]) <==> (m in drafts' && d in drafts'[m]) {
      assert Contributed(gate, anchors, m, d) <==> Contributed(gate', anchors, m, d);
    }
    if m in drafts { SomeMember(drafts[m]); }
    if m in drafts' { SomeMember(drafts'[m]); }
  }

  /** A damaged invalidation of the map hides its draft, whatever the cutoff. */
  lemma DamageHides(reader: Reader, e: Evidence, a: Anchor, cutoff: Option<int>, v: Invalidation)
    requires v in InvalidationsOf(e, a.mapNumber) && reader.clock(v.capturedAt).None?
    ensures !Shown(reader, e, a, cutoff)
  {
  }

  /**
   * Every draft shown at a cutoff was known then: the anchor, then its sides, then an observation
   * of the same heroes in the same places on the same sides that was never invalidated and is later
   * than every invalidation of the map by the cutoff. Every conflict that contradicts it is later.
   */
  lemma ShownDraftsAreCausal(reader: Reader, e: Evidence, a: Anchor, cutoff: int)
    requires reader.Injective() && Shown(reader, e, a, Some(cutoff))
    ensures exists o :: o in e.observations && WitnessedBy(reader, e, a, cutoff, o)
    ensures forall c | c in e.conflicts && c.mapNumber == a.mapNumber && Intrinsic(a, c) ::
              reader.clock(c.capturedAt).Some? && reader.clock(c.capturedAt).value > cutoff
  {
    var o :| o in Trusted(e, a.mapNumber) && Sees(reader, a, o, Some(cutoff))
        && Outlives(reader, e, a.mapNumber, o, Some(cutoff));
    assert WitnessedBy(reader, e, a, cutoff, o);
    OfMapHolds(e.conflicts, a.mapNumber);
    forall c | c in e.conflicts && c.mapNumber == a.mapNumber && Intrinsic(a, c)
      ensures reader.clock(c.capturedAt).Some? && reader.clock(c.capturedAt).value > cutoff
    {
      assert c in Select(OfMap(e.conflicts, a.mapNumber), (c: Conflict) => Intrinsic(a, c));
      assert c in Effective(a, OfMap(e.conflicts, a.mapNumber));
    }
  }

  ghost predicate WitnessedBy(reader: Reader, e: Evidence, a: Anchor, cutoff: int, o: Observation) {
    var at, sideAt, seen := reader.clock(a.anchoredAt), reader.clock(a.sideAnchoredAt), reader.clock(o.capturedAt);
    && at.Some? && sideAt.Some? && seen.Some? && at.value <= sideAt.value <= seen.value <= cutoff
    && o.confirmed && o.mapNumber == Some(a.mapNumber)
    && o.radiant == a.radiant && o.dire == a.dire && o.side == a.side
    && (forall v | v in e.invalidations :: !SameFrame(o, v))
    && (forall v, u | v in e.invalidations && u in e.observations && SameFrame(u, v) && u.mapNumber == o.mapNumber
                      && By(reader, v.capturedAt, cutoff) :: reader.clock(v.capturedAt).value < seen.value)
  }

  /* ---------- conflicts ---------- */

  predicate SomeStands(reader: Reader, conflicts: seq<Conflict>, cutoff: int) {
    exists c | c in conflicts :: Stands(reader, c.capturedAt, Some(cutoff))
  }

  predicate SomeIntrinsic(a: Anchor, conflicts: seq<Conflict>) {
    exists c | c in conflicts :: Intrinsic(a, c)
  }

  /** The branch that lets the future in: the draft is hidden by rows that agree with it, and only by them. */
  predicate HiddenByAgreement(reader: Reader, a: Anchor, conflicts: seq<Conflict>, cutoff: int) {
    && !(a.status == Conflicted && Stands(reader, a.conflictAt, Some(cutoff)))
    && SomeStands(reader, conflicts, cutoff) && !SomeIntrinsic(a, conflicts)
  }

  lemma EffectiveConflicts(a: Anchor, conflicts: seq<Conflict>)
    ensures forall c :: c in Effective(a, conflicts) <==>
              c in conflicts && (SomeIntrinsic(a, conflicts) ==> Intrinsic(a, c))
  {
    var intrinsic := Select(conflicts, (c: Conflict) => Intrinsic(a, c));
    if intrinsic != [] { assert intrinsic[0] in intrinsic; }
  }

  /**
   * Conflicts known to be later than the cutoff leave the gate alone exactly unless rows that agree
   * with the anchor hide the draft and a later row contradicts it: that row then takes their place.
   */
  lemma LaterConflictsIff(reader: Reader, a: Anchor, conflicts: seq<Conflict>, late: seq<Conflict>, cutoff: int)
    requires !SomeStands(reader, late, cutoff)
    ensures (Hidden(reader, a, conflicts + late, Some(cutoff)) <==> Hidden(reader, a, conflicts, Some(cutoff))) <==>
              !(HiddenByAgreement(reader, a, conflicts, cutoff) && SomeIntrinsic(a, late))
    ensures Hidden(reader, a, conflicts + late, Some(cutoff)) ==> Hidden(reader, a, conflicts, Some(cutoff))
  {
    EffectiveConflicts(a, conflicts);
    EffectiveConflicts(a, conflicts + late);
    assert SomeIntrinsic(a, conflicts + late) <==> SomeIntrinsic(a, conflicts) || SomeIntrinsic(a, late) by {
      assert forall c :: c in conflicts + late <==> c in conflicts || c in late;
    }
  }

  /** The same of the whole gate: with such rows added to a match, the draft is shown or not as before. */
  lemma LaterConflictsAreHarmlessIff(reader: Reader, e: Evidence, a: Anchor, late: seq<Conflict>, cutoff: int)
    requires forall c | c in late :: c.mapNumber == a.mapNumber
    requires !SomeStands(reader, late, cutoff)
    requires a.status != OtherStatus && Shown(reader, e.(conflicts := []), a.(status := Anchored), Some(cutoff))
    ensures (Shown(reader, e.(conflicts := e.conflicts + late), a, Some(cutoff))
             <==> Shown(reader, e, a, Some(cutoff))) <==>
              !(HiddenByAgreement(reader, a, OfMap(e.conflicts, a.mapNumber), cutoff) && SomeIntrinsic(a, late))
  {
    var e', b := e.(conflicts := e.conflicts + late), a.(status := Anchored);
    assert forall i | 0 <= i < |late| :: late[i] in late;
    OfMapExtends(e.conflicts, late, a.mapNumber);
    LaterConflictsIff(reader, a, OfMap(e.conflicts, a.mapNumber), late, cutoff);
    OnlyConflictsDiffer(reader, e.(conflicts := []), e, b, a, Some(cutoff));
    OnlyConflictsDiffer(reader, e.(conflicts := []), e', b, a, Some(cutoff));
  }

  lemma OnlyConflictsDiffer(reader: Reader, e: Evidence, e': Evidence, b: Anchor, a: Anchor, cutoff: Option<int>)
    requires Shown(reader, e, b, cutoff) && b == a.(status := Anchored) && a.status != OtherStatus
    requires e'.observations == e.observations && e'.invalidations == e.invalidations
    ensures Shown(reader, e', a, cutoff) <==> !Hidden(reader, a, OfMap(e'.conflicts, a.mapNumber), cutoff)
  {
    assert Trusted(e', a.mapNumber) == Trusted(e, a.mapNumber)
           && InvalidationsOf(e', a.mapNumber) == InvalidationsOf(e, a.mapNumber);
    var o :| o in Trusted(e, b.mapNumber) && Sees(reader, b, o, cutoff) && Outlives(reader, e, b.mapNumber, o, cutoff);
    assert Sees(reader, a, o, cutoff) && Outlives(reader, e', a.mapNumber, o, cutoff);
  }

  lemma {:induction false} OfMapHolds(conflicts: seq<Conflict>, mapNumber: int)
    ensures forall c :: c in OfMap(conflicts, mapNumber) <==> c in conflicts && c.mapNumber == mapNumber
  {
    if conflicts != [] {
      var init := conflicts[..|conflicts| - 1];
      assert conflicts == init + [conflicts[|conflicts| - 1]];
      OfMapHolds(init, mapNumber);
    }
  }

  lemma OfMapOneMore(conflicts: seq<Conflict>, c: Conflict)
    ensures OfMap(conflicts + [c], c.mapNumber) == OfMap(conflicts, c.mapNumber) + [c]
  {
    assert conflicts + [c] != [] && (conflicts + [c])[..|conflicts + [c]| - 1] == conflicts;
  }

  lemma LastAppended(conflicts: seq<Conflict>, late: seq<Conflict>)
    requires late != []
    ensures conflicts + late == conflicts + late[..|late| - 1] + [late[|late| - 1]]
  {
  }

  lemma {:induction false} OfMapExtends(conflicts: seq<Conflict>, late: seq<Conflict>, mapNumber: int)
    requires forall i | 0 <= i < |late| :: late[i].mapNumber == mapNumber
    ensures OfMap(conflicts + late, mapNumber) == OfMap(conflicts, mapNumber) + late
  {
    if late == [] {
      assert conflicts + late == conflicts;
    } else {
      OfMapExtends(conflicts, late[..|late| - 1], mapNumber);
      OfMapOneMore(conflicts + late[..|late| - 1], late[|late| - 1]);
      LastAppended(conflicts, late);
      LastAppended(OfMap(conflicts, mapNumber), late);
    }
  }

  /* ---------- a later conflict reveals a hidden draft ---------- */

  /** Times are written as a single digit. */
  function Digit(s: string): Option<int> {
    if |s| == 1 && '0' <= s[0] <= '9' then Some(s[0] as int - '0' as int) else None
  }

  type DraftHash = (seq<int>, seq<int>) -> string

  const RADIANT := [1, 2, 3, 4, 5]
  const DIRE := [6, 7, 8, 9, 10]
  const SEEN := Observation(Some(1), "2", "frame", true, Some(RADIANT), Some(DIRE), Some(RaybetFinal.TeamOne))

  function AnchorAt1(hash: DraftHash): Anchor {
    Anchor(1, hash(RADIANT, DIRE), Some(RADIANT), Some(DIRE), Some(RaybetFinal.TeamOne), "1", true, "1", Anchored, "")
  }

  /** A conflict of the anchored draft with unknown sides, and one that saw the sides the other way round. */
  function AgreeingAt3(hash: DraftHash): Conflict {
    Conflict(1, "3", hash(RADIANT, DIRE), None)
  }

  function ContradictingAt9(hash: DraftHash): Conflict {
    Conflict(1, "9", hash(RADIANT, DIRE), Some(RaybetFinal.TeamTwo))
  }

  function SeenWith(hash: DraftHash, conflicts: seq<Conflict>): Evidence {
    Evidence([AnchorAt1(hash)], conflicts, [SEEN], [])
  }

  lemma SeenAlone(hash: DraftHash)
    ensures Shown(Reader(hash, Digit), SeenWith(hash, []), AnchorAt1(hash), Some(5))
  {
    var reader, e, a := Reader(hash, Digit), SeenWith(hash, []), AnchorAt1(hash);
    assert Digit("1") == Some(1) && Digit("2") == Some(2);
    assert RADIANT + DIRE == [1, 2, 3, 4, 5, 6, 7, 8, 9, 10];
    assert IsDraft(RADIANT, DIRE);
    assert SEEN in Trusted(e, 1) && Sees(reader, a, SEEN, Some(5)) && Outlives(reader, e, 1, SEEN, Some(5));
  }

  /**
   * A draft that is shown without conflicts is hidden by one that agrees with it, and shown again with a
   * later contradiction.
   */
  lemma ContradictionReveals(reader: Reader, e: Evidence, a: Anchor, early: Conflict, late: Conflict, cutoff: int)
    requires e.conflicts == [] && a.status == Anchored && Shown(reader, e, a, Some(cutoff))
    requires early.mapNumber == a.mapNumber && !Intrinsic(a, early) && Stands(reader, early.capturedAt, Some(cutoff))
    requires late.mapNumber == a.mapNumber && Intrinsic(a, late) && !Stands(reader, late.capturedAt, Some(cutoff))
    ensures !Shown(reader, e.(conflicts := [early]), a, Some(cutoff))
    ensures Shown(reader, e.(conflicts := [early, late]), a, Some(cutoff))
  {
    var hidden := e.(conflicts := [early]);
    OfMapOfOne(early);
    OneAgreementHides(reader, a, early, cutoff);
    assert hidden.(conflicts := []) == e && a.(status := Anchored) == a;
    assert late in [late] && hidden.conflicts + [late] == [early, late];
    LaterConflictsAreHarmlessIff(reader, hidden, a, [late], cutoff);
  }

  lemma OfMapOfOne(c: Conflict)
    ensures OfMap([c], c.mapNumber) == [c]
  {
    OfMapExtends([], [c], c.mapNumber);
    assert [] + [c] == [c];
  }

  lemma OneAgreementHides(reader: Reader, a: Anchor, c: Conflict, cutoff: int)
    requires a.status == Anchored && !Intrinsic(a, c) && Stands(reader, c.capturedAt, Some(cutoff))
    ensures Hidden(reader, a, [c], Some(cutoff)) && HiddenByAgreement(reader, a, [c], cutoff)
  {
    EffectiveConflicts(a, [c]);
    assert c in [c];
  }

  /**
   * With the cutoff at 5, a conflict captured at 9 shows the draft that the conflict of 3 had hidden,
   * whatever the digest is.
   */
  lemma ALaterConflictCanReveal(hash: DraftHash)
    ensures !Shown(Reader(hash, Digit), SeenWith(hash, [AgreeingAt3(hash)]), AnchorAt1(hash), Some(5))
    ensures Shown(Reader(hash, Digit), SeenWith(hash, [AgreeingAt3(hash), ContradictingAt9(hash)]), AnchorAt1(hash),
                  Some(5))
  {
    SeenAlone(hash);
    TimesOfTheConflicts(hash);
    ContradictionReveals(Reader(hash, Digit), SeenWith(hash, []), AnchorAt1(hash), AgreeingAt3(hash),
                         ContradictingAt9(hash), 5);
  }

  lemma TimesOfTheConflicts(hash: DraftHash)
    ensures Stands(Reader(hash, Digit), AgreeingAt3(hash).capturedAt, Some(5))
    ensures !Stands(Reader(hash, Digit), ContradictingAt9(hash).capturedAt, Some(5))
  {
    assert Digit("3") == Some(3) && Digit("9") == Some(9);
  }
}
