/** The orders in which results, rows, states and members are listed, told of the lists themselves. */
module OrderMeaning {
  import opened Wrappers
  import opened Ordering
  import opened TextOrder
  import TeamRating
  import Chronology
  import TrainingReplay
  import OddsIdentity

  /** Text is ordered as in a dictionary: by the first different character, and a beginning comes before the whole. */
  lemma {:induction false} TextIsAlphabetical(common: string, a: string, b: string)
    ensures a != "" && b != "" && a[0] < b[0] ==> TextBefore(common + a, common + b)
    ensures a != "" ==> TextBefore(common, common + a)
  {
    if common != "" {
      var rest := common[1..];
      TextIsAlphabetical(rest, a, b);
      assert (common + a)[1..] == rest + a && (common + b)[1..] == rest + b;
    } else {
      assert common + a == a && common + b == b;
    }
  }

  /** One triple of numbers comes before another, the first numbers first. */
  predicate TripleBefore(a: (int, int, int), b: (int, int, int)) {
    if a.0 != b.0 then a.0 < b.0 else if a.1 != b.1 then a.1 < b.1 else a.2 < b.2
  }

  /** States are listed by increasing team id. */
  lemma StatesComeByTeam(t: seq<TeamRating.TeamRatingState>, states: TeamRating.States, i: nat, j: nat)
    requires TeamRating.Represents(t, states) && i < j < |t|
    ensures t[i].teamId < t[j].teamId
  {
    assert TeamRating.TeamBefore(t[i], t[j]);
  }

  /** Admitted results are listed as they became usable, then as they started, then by match. */
  lemma ResultsComeAsTheyBecameUsable(values: seq<Chronology.AuthoritativeResult>, i: nat, j: nat)
    requires Chronology.Consistent(Elems(values)) && i < j < |Sort(Chronology.ResultBefore, values)|
    ensures var s := Sort(Chronology.ResultBefore, values);
            TripleBefore((s[i].row.usableAt.value, s[i].row.startedAt, s[i].row.matchId),
                         (s[j].row.usableAt.value, s[j].row.startedAt, s[j].row.matchId))
  {
    Chronology.OrdersAreTotal(Elems(values));
    SortLists(Chronology.ResultBefore, values);
  }

  /** They are replayed as they started, then as they were completed, then by match. */
  lemma ResultsAreReplayedAsTheyStarted(values: seq<Chronology.AuthoritativeResult>, i: nat, j: nat)
    requires Chronology.Consistent(Elems(values)) && i < j < |Sort(Chronology.ReplayBefore, values)|
    ensures var s := Sort(Chronology.ReplayBefore, values);
            TripleBefore((s[i].row.startedAt, s[i].row.completedAt, s[i].row.matchId),
                         (s[j].row.startedAt, s[j].row.completedAt, s[j].row.matchId))
  {
    Chronology.OrdersAreTotal(Elems(values));
    SortLists(Chronology.ReplayBefore, values);
  }

  /** The corpus holds the rows whose result was usable by the cutoff, and lists them in the same way. */
  lemma CorpusIsWhatWasUsable(rows: set<TeamRating.RatingMapInput>, cutoff: int, corpus: seq<TeamRating.RatingMapInput>)
    requires TrainingReplay.IsCorpusOf(rows, cutoff, Ok(corpus))
    ensures forall row :: row in corpus <==> row in rows && row.usableAt.Some? && row.usableAt.value <= cutoff
    ensures forall i, j | 0 <= i < j < |corpus| ::
              TripleBefore((corpus[i].startedAt, corpus[i].completedAt, corpus[i].matchId),
                           (corpus[j].startedAt, corpus[j].completedAt, corpus[j].matchId))
  {
    forall i, j | 0 <= i < j < |corpus|
      ensures TripleBefore((corpus[i].startedAt, corpus[i].completedAt, corpus[i].matchId),
                           (corpus[j].startedAt, corpus[j].completedAt, corpus[j].matchId))
    {
      assert TrainingReplay.RowBefore(corpus[i], corpus[j]);
    }
  }

  /** Members of a response are listed by odds id, as text. */
  lemma MembersComeById(raws: seq<OddsIdentity.RawOutcome>, i: nat, j: nat)
    requires OddsIdentity.ValidResponse(raws) && i < j < |OddsIdentity.Canonical(raws)|
    ensures TextBefore(OddsIdentity.Canonical(raws)[i].oddsId, OddsIdentity.Canonical(raws)[j].oddsId)
  {
    OddsIdentity.CanonicalIsListed(raws);
    assert OddsIdentity.OddsIdBefore(OddsIdentity.Canonical(raws)[i], OddsIdentity.Canonical(raws)[j]);
  }
}
