/**
 * What a returned draft says about the stored rows: whose heroes and sides they are, who saw them, and
 * that nothing stands against it. Said of the rows themselves, in both directions.
 */
module DraftMeaning {
  import opened Wrappers
  import opened VisionDrafts
  import opened DraftCausality

  /** The moment the text denotes is known and within the limit. */
  predicate Within(reader: Reader, time: string, limit: Option<int>) {
    reader.clock(time).Some? && (limit.Some? ==> reader.clock(time).value <= limit.value)
  }

  /** With a limit, the moment is known to be after it. */
  predicate After(reader: Reader, time: string, limit: Option<int>) {
    limit.Some? && reader.clock(time).Some? && limit.value < reader.clock(time).value
  }

  /** The list has five entries and they are the members of the set. */
  ghost predicate ListsHeroes(list: Option<seq<int>>, heroes: set<int>) {
    list.Some? && |list.value| == 5 && |heroes| == 5 && forall h :: h in heroes <==> h in list.value
  }

  /** Two lists name ten different heroes. */
  ghost predicate NamesTen(radiant: Option<seq<int>>, dire: Option<seq<int>>, r: set<int>, d: set<int>) {
    ListsHeroes(radiant, r) && ListsHeroes(dire, d) && r !! d && forall h | h in r + d :: h > 0
  }

  /** The anchor of the map fixes this draft: its heroes under its own digest, then its sides, within the limit. */
  ghost predicate Fixes(reader: Reader, a: Anchor, m: int, limit: Option<int>, d: VisionDraft) {
    && a.mapNumber == m && NamesTen(a.radiant, a.dire, d.radiant, d.dire)
    && a.draftHash == reader.hash(a.radiant.value, a.dire.value)
    && a.side == Some(d.side) && a.hasSideFrame && (a.status == Anchored || a.status == Conflicted)
    && Within(reader, a.anchoredAt, limit) && Within(reader, a.sideAnchoredAt, limit)
    && reader.clock(a.anchoredAt).value <= reader.clock(a.sideAnchoredAt).value
  }

  /** The row is of another draft, or has the teams on the other sides. */
  predicate Contradicts(a: Anchor, c: Conflict) {
    c.draftHash != a.draftHash || (c.side.Some? && a.side.Some? && c.side != a.side)
  }

  /** Only what is known to be later contradicts the anchor, or, when nothing contradicts it, agrees with it. */
  ghost predicate Unopposed(reader: Reader, e: Evidence, a: Anchor, limit: Option<int>) {
    && (a.status == Conflicted ==> After(reader, a.conflictAt, limit))
    && (forall c | c in e.conflicts && c.mapNumber == a.mapNumber && Contradicts(a, c) ::
          After(reader, c.capturedAt, limit))
    && ((forall c | c in e.conflicts && c.mapNumber == a.mapNumber :: !Contradicts(a, c)) ==>
          forall c | c in e.conflicts && c.mapNumber == a.mapNumber :: After(reader, c.capturedAt, limit))
  }

  /** The frame of the observation, by its time and name, is invalidated. */
  predicate OfFrame(v: Invalidation, o: Observation) {
    v.capturedAt == o.capturedAt && v.frame == o.frame
  }

  /** The observation saw a draft of this digest on these sides, after the sides were fixed and within the limit. */
  ghost predicate Saw(reader: Reader, a: Anchor, o: Observation, limit: Option<int>, side: Side) {
    && o.mapNumber == Some(a.mapNumber) && o.confirmed && o.side == Some(side)
    && (exists r, d :: NamesTen(o.radiant, o.dire, r, d)) && reader.hash(o.radiant.value, o.dire.value) == a.draftHash
    && Within(reader, o.capturedAt, limit)
    && reader.clock(a.sideAnchoredAt).Some?
    && reader.clock(a.sideAnchoredAt).value <= reader.clock(o.capturedAt).value
  }

  /**
   * No invalidation is of the observation's own frame, and all those of the map's frames are at known
   * times, within the limit only before the observation.
   */
  ghost predicate NeverInvalidated(reader: Reader, e: Evidence, m: int, o: Observation, limit: Option<int>) {
    && reader.clock(o.capturedAt).Some? && (forall v | v in e.invalidations :: !OfFrame(v, o))
    && (forall v, u | v in e.invalidations && u in e.observations && OfFrame(v, u) && u.mapNumber == Some(m) ::
          reader.clock(v.capturedAt).Some?
          && (Within(reader, v.capturedAt, limit) ==>
                reader.clock(v.capturedAt).value < reader.clock(o.capturedAt).value))
  }

  /** The anchor and the observation of the match vouch for the draft of the map. */
  ghost predicate Vouch(reader: Reader, e: Evidence, m: int, limit: Option<int>, a: Anchor, o: Observation,
                        d: VisionDraft)
  {
    && a in e.anchors && o in e.observations && Fixes(reader, a, m, limit, d) && Unopposed(reader, e, a, limit)
    && Saw(reader, a, o, limit, d.side) && NeverInvalidated(reader, e, m, o, limit)
  }

  /* ---------- hero lists ---------- */

  lemma {:induction false} DistinctCount(s: seq<int>)
    ensures |set h | h in s| <= |s|
    ensures |set h | h in s| == |s| <==> forall i, j | 0 <= i < j < |s| :: s[i] != s[j]
  {
    if s != [] {
      var init, last := s[..|s| - 1], s[|s| - 1];
      assert s == init + [last];
      DistinctCount(init);
      assert (set h | h in s) == (set h | h in init) + {last};
      if last in init {
        var k :| 0 <= k < |init| && init[k] == last;
        assert s[k] == s[|s| - 1];
        assert (set h | h in s) == (set h | h in init);
      }
    }
  }

  lemma DraftNamesTen(radiant: seq<int>, dire: seq<int>)
    requires IsDraft(radiant, dire)
    ensures NamesTen(Some(radiant), Some(dire), set h | h in radiant, set h | h in dire)
  {
    var both := radiant + dire;
    forall i, j | 0 <= i < j < 5 ensures radiant[i] != radiant[j] && dire[i] != dire[j] {
      assert both[i] != both[j] && both[5 + i] != both[5 + j];
    }
    DistinctCount(radiant);
    DistinctCount(dire);
    forall i, j | 0 <= i < 5 && 0 <= j < 5 ensures radiant[i] != dire[j] {
      assert both[i] != both[5 + j];
    }
    forall h | h in radiant || h in dire ensures h > 0 {
      assert h in both;
    }
  }

  lemma NamesTenIsDraft(radiant: seq<int>, dire: seq<int>)
    requires NamesTen(Some(radiant), Some(dire), set h | h in radiant, set h | h in dire)
    ensures IsDraft(radiant, dire)
  {
    var both := radiant + dire;
    DistinctCount(radiant);
    DistinctCount(dire);
    forall i | 0 <= i < 10 ensures both[i] > 0 {
      assert both[i] in radiant || both[i] in dire;
      assert both[i] in (set h | h in radiant) + (set h | h in dire);
    }
    forall i, j | 0 <= i < j < 10 ensures both[i] != both[j] {
      if i < 5 && 5 <= j { assert both[i] in radiant && both[j] in dire; }
    }
  }

  /** A draft's lists are exactly the lists that name ten heroes. */
  lemma DraftsNameTen(radiant: seq<int>, dire: seq<int>)
    ensures IsDraft(radiant, dire) <==>
              NamesTen(Some(radiant), Some(dire), set h | h in radiant, set h | h in dire)
  {
    if IsDraft(radiant, dire) { DraftNamesTen(radiant, dire); }
    if NamesTen(Some(radiant), Some(dire), set h | h in radiant, set h | h in dire) { NamesTenIsDraft(radiant, dire); }
  }

  /** Whose heroes a draft holds is determined by the lists. */
  lemma HeroesAreTheMembers(radiant: Option<seq<int>>, dire: Option<seq<int>>, r: set<int>, d: set<int>)
    requires NamesTen(radiant, dire, r, d)
    ensures r == (set h | h in radiant.value) && d == (set h | h in dire.value)
  {
    forall h ensures h in r <==> h in set h' | h' in radiant.value {}
    forall h ensures h in d <==> h in set h' | h' in dire.value {}
  }

  /** What is read of two lists: a draft exactly when they name ten heroes, and then these. */
  lemma IdentityNamesTen(reader: Reader, radiant: Option<seq<int>>, dire: Option<seq<int>>)
    ensures var identity := DraftIdentity(reader, radiant, dire);
            && (identity.Some? <==> exists r, d :: NamesTen(radiant, dire, r, d))
            && (identity.Some? ==> NamesTen(radiant, dire, identity.value.radiant, identity.value.dire)
                                   && identity.value.digest == reader.hash(radiant.value, dire.value))
  {
    if radiant.Some? && dire.Some? {
      DraftsNameTen(radiant.value, dire.value);
      if exists r, d :: NamesTen(radiant, dire, r, d) {
        var r, d :| NamesTen(radiant, dire, r, d);
        HeroesAreTheMembers(radiant, dire, r, d);
      }
    }
  }

  /* ---------- the parts of the gate ---------- */

  /** An anchor passes its own checks exactly when it fixes the draft that it contributes. */
  lemma AnchorsFix(reader: Reader, a: Anchor, limit: Option<int>, d: VisionDraft)
    ensures WellAnchored(reader, a, limit) && Consistent(reader, a) && DraftOf(reader, a) == d
            <==> Fixes(reader, a, a.mapNumber, limit, d)
  {
    IdentityNamesTen(reader, a.radiant, a.dire);
    if Fixes(reader, a, a.mapNumber, limit, d) { HeroesAreTheMembers(a.radiant, a.dire, d.radiant, d.dire); }
  }

  lemma HiddenIffOpposed(reader: Reader, e: Evidence, a: Anchor, limit: Option<int>)
    ensures Hidden(reader, a, OfMap(e.conflicts, a.mapNumber), limit) <==> !Unopposed(reader, e, a, limit)
  {
    var conflicts := OfMap(e.conflicts, a.mapNumber);
    OfMapHolds(e.conflicts, a.mapNumber);
    EffectiveConflicts(a, conflicts);
    assert forall c :: Contradicts(a, c) <==> Intrinsic(a, c);
    assert forall time :: After(reader, time, limit) <==> !Stands(reader, time, limit);
  }

  /** An observation supports an anchored draft exactly when it saw it and was never invalidated. */
  lemma SupportsIffSaw(reader: Reader, e: Evidence, a: Anchor, o: Observation, limit: Option<int>)
    requires a.side.Some? && o in e.observations && Undamaged(reader, e, a.mapNumber)
    ensures o in Trusted(e, a.mapNumber) && Sees(reader, a, o, limit) && Outlives(reader, e, a.mapNumber, o, limit)
            <==> Saw(reader, a, o, limit, a.side.value) && NeverInvalidated(reader, e, a.mapNumber, o, limit)
  {
    IdentityNamesTen(reader, o.radiant, o.dire);
    assert forall v :: OfFrame(v, o) <==> SameFrame(o, v);
  }

  /* ---------- the drafts that are returned ---------- */

  /** The limit of a map, if it is one: no cutoff is none, and a cutoff that denotes no moment lets nothing through. */
  predicate LimitOf(cutoffs: Cutoffs, m: int, limit: Option<int>) {
    if m in cutoffs then limit == cutoffs[m] && limit.Some? else limit.None?
  }

  lemma ShownIffVouched(reader: Reader, e: Evidence, a: Anchor, limit: Option<int>, d: VisionDraft)
    requires a in e.anchors
    ensures Shown(reader, e, a, limit) && DraftOf(reader, a) == d
            <==> exists o :: Vouch(reader, e, a.mapNumber, limit, a, o, d)
  {
    AnchorsFix(reader, a, limit, d);
    HiddenIffOpposed(reader, e, a, limit);
    if Shown(reader, e, a, limit) && DraftOf(reader, a) == d {
      var o :| o in Trusted(e, a.mapNumber) && Sees(reader, a, o, limit) && Outlives(reader, e, a.mapNumber, o, limit);
      SupportsIffSaw(reader, e, a, o, limit);
      assert Vouch(reader, e, a.mapNumber, limit, a, o, d);
    }
    if o :| Vouch(reader, e, a.mapNumber, limit, a, o, d) {
      assert Undamaged(reader, e, a.mapNumber);
      SupportsIffSaw(reader, e, a, o, limit);
    }
  }

  /**
   * A draft is returned for a map exactly when an anchor and an observation of the match vouch for it:
   * its radiant and dire heroes are those of the anchor's two lists, and its side is the anchor's.
   */
  lemma ReturnedIffVouched(reader: Reader, e: Evidence, cutoffs: Cutoffs, drafts: map<int, set<VisionDraft>>, m: int,
                           d: VisionDraft)
    requires Lists(Gate(reader, e, cutoffs), e.anchors, drafts)
    ensures m in drafts && d in drafts[m] <==>
              exists limit, a, o :: LimitOf(cutoffs, m, limit) && Vouch(reader, e, m, limit, a, o, d)
  {
    var gate := Gate(reader, e, cutoffs);
    if m in drafts && d in drafts[m] {
      assert Contributed(gate, e.anchors, m, d);
      var a :| a in e.anchors && a.mapNumber == m && gate(a) == Some(d);
      var limit := if m in cutoffs then cutoffs[m] else None;
      ShownIffVouched(reader, e, a, limit, d);
      assert LimitOf(cutoffs, m, limit);
    }
    if limit, a, o :| LimitOf(cutoffs, m, limit) && Vouch(reader, e, m, limit, a, o, d) {
      ShownIffVouched(reader, e, a, limit, d);
      assert gate(a) == Some(d);
      assert Contributed(gate, e.anchors, m, d);
    }
  }

  /** When digests are different for different lists, the observation saw the anchor's own lists. */
  lemma WitnessesSawTheLists(reader: Reader, e: Evidence, m: int, limit: Option<int>, a: Anchor, o: Observation,
                             d: VisionDraft)
    requires reader.Injective() && Vouch(reader, e, m, limit, a, o, d)
    ensures o.radiant == a.radiant && o.dire == a.dire && NamesTen(o.radiant, o.dire, d.radiant, d.dire)
    ensures o.side == Some(d.side)
  {
  }
}
