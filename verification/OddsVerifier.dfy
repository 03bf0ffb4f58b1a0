/**
 * Read-only verification of persisted odds responses. The streaming merge of raw artifacts with
 * the states that refer to them accepts exactly when a plain check of every row does.
 */
module OddsVerifier {
  import opened Wrappers
  import opened TextOrder
  import opened LeftJoins

  datatype VerifyError =
    | StateMissing(stateHash: string)
    | StateInvalid
    | StatesShareIdentity
    | ArtifactMissing(hash: string)
    | ArtifactInvalid(hash: string)
    | BindingInvalid(hash: string)

  /**
   * The columns of a state row, and its verified manifest; what is checked in them is left abstract. A
   * state with a v2 hash is identified by its match and this hash.
   */
  datatype Checks<!M, !O, !A, !F> = Checks(
    authority: (M, seq<O>) -> Option<A>,
    v2Identity: M -> Option<(string, string)>,
    fileVerifies: (string, F) -> bool,
    pairVerifies: (string, F, A) -> bool)

  /** A raw artifact: its content hash and the stored file data. */
  datatype Artifact<F> = Artifact(hash: string, file: F)

  /* ---------- states ---------- */

  /** Two states have the same v2 identity: a hash that stands for two manifests of one match. */
  predicate Shared<M, O, A, F>(checks: Checks<M, O, A, F>, states: seq<Entry<string, M, O>>, i: nat, j: nat)
    requires i < |states| && j < |states|
  {
    checks.v2Identity(states[i].meta).Some? && checks.v2Identity(states[i].meta) == checks.v2Identity(states[j].meta)
  }

  predicate SharedIdentity<M, O, A, F>(checks: Checks<M, O, A, F>, states: seq<Entry<string, M, O>>) {
    exists i, j | 0 <= i < j < |states| :: Shared(checks, states, i, j)
  }

  /** The plain check: every state verifies with its own outcomes, and no two share a v2 identity. */
  ghost predicate StatesVerify<M, O, A, F>(checks: Checks<M, O, A, F>, states: seq<Entry<string, M, O>>) {
    (forall s | s in states :: checks.authority(s.meta, s.outcomes).Some?) && !SharedIdentity(checks, states)
  }

  method CountVerified<M, O, A, F>(checks: Checks<M, O, A, F>, groups: seq<Entry<string, M, O>>)
    returns (count: Option<nat>)
    ensures count.Some? <==> forall g | g in groups :: checks.authority(g.meta, g.outcomes).Some?
    ensures count.Some? ==> count.value == |groups|
  {
    var verified := 0;
    for i := 0 to |groups|
      invariant verified == i && forall g | g in groups[..i] :: checks.authority(g.meta, g.outcomes).Some?
    {
      if checks.authority(groups[i].meta, groups[i].outcomes).None? {
        assert groups[i] in groups;
        return None;
      }
      verified := verified + 1;
    }
    assert groups[..|groups|] == groups;
    count := Some(verified);
  }

  method VerifyStates<M, O, A, F>(checks: Checks<M, O, A, F>, rows: seq<JoinRow<string, M, O>>)
    returns (r: Result<nat, VerifyError>)
    ensures r.Ok? <==> StatesVerify(checks, GroupsOf(rows))
    ensures r.Ok? ==> r.value == |GroupsOf(rows)|
    ensures r.Err? ==> r.error == if forall g | g in GroupsOf(rows) :: checks.authority(g.meta, g.outcomes).Some?
                                  then StatesShareIdentity else StateInvalid
  {
    var groups := Groups(rows);
    var count := CountVerified(checks, groups);
    if count.None? { return Err(StateInvalid); }
    r := if SharedIdentity(checks, groups) then Err(StatesShareIdentity) else Ok(count.value);
  }

  /** The states verify exactly when each does by itself and a v2 identity belongs to one state only. */
  lemma VerifiedIdentitiesAreUnique<M, O, A, F>(checks: Checks<M, O, A, F>, states: seq<Entry<string, M, O>>)
    ensures StatesVerify(checks, states) <==>
              (forall s | s in states :: checks.authority(s.meta, s.outcomes).Some?)
              && forall i, j | 0 <= i < |states| && 0 <= j < |states| && checks.v2Identity(states[i].meta).Some?
                               && checks.v2Identity(states[j].meta) == checks.v2Identity(states[i].meta) :: i == j
  {
    if i, j :| 0 <= i < |states| && 0 <= j < |states| && checks.v2Identity(states[i].meta).Some?
               && checks.v2Identity(states[j].meta) == checks.v2Identity(states[i].meta) && i != j
    {
      var first, second := if i < j then i else j, if i < j then j else i;
      assert Shared(checks, states, first, second);
    }
  }

  /** One-pass verification of the state query is the plain check of every state with its own outcomes. */
  lemma StreamedStatesAreAllChecked<M, O, A, F>(checks: Checks<M, O, A, F>, states: seq<Entry<string, M, O>>)
    requires DistinctKeys(states)
    ensures StatesVerify(checks, GroupsOf(LeftJoin(states))) <==> StatesVerify(checks, states)
    ensures |GroupsOf(LeftJoin(states))| == |states|
  {
    GroupingInvertsLeftJoin(states);
  }

  /* ---------- artifacts and the states they back ---------- */

  /** A verified (artifact, state) pair, or the point at which the generator fails. */
  datatype Item<A> = Pair(artifact: string, authority: A) | Broken(error: VerifyError)

  /** The rows of the pair query: the state's columns are missing when there is no such state. */
  type PairRow<M, O> = JoinRow<(string, string), Option<M>, O>
  type PairEntry<M, O> = Entry<(string, string), Option<M>, O>

  function ItemOf<M, O, A, F>(checks: Checks<M, O, A, F>, group: PairEntry<M, O>): Item<A> {
    if group.meta.None? then Broken(StateMissing(group.key.1))
    else
      var authority := checks.authority(group.meta.value, group.outcomes);
      if authority.None? then Broken(StateInvalid) else Pair(group.key.0, authority.value)
  }

  /** What a pair gives: its artifact with the state's authority, or what is missing or invalid. */
  lemma ItemsSayWhatIsWrong<M, O, A, F>(checks: Checks<M, O, A, F>, group: PairEntry<M, O>)
    ensures var item := ItemOf(checks, group);
            && (item == Broken(StateMissing(group.key.1)) <==> group.meta.None?)
            && (item == Broken(StateInvalid) <==>
                  group.meta.Some? && checks.authority(group.meta.value, group.outcomes).None?)
            && (item.Pair? <==> group.meta.Some? && checks.authority(group.meta.value, group.outcomes).Some?)
            && (item.Pair? ==> item.artifact == group.key.0
                               && Some(item.authority) == checks.authority(group.meta.value, group.outcomes))
  {
  }

  /** The items in order, up to the first that fails. */
  function ItemsOf<M, O, A, F>(checks: Checks<M, O, A, F>, groups: seq<PairEntry<M, O>>): seq<Item<A>> {
    if groups == [] then []
    else
      var item := ItemOf(checks, groups[0]);
      if item.Broken? then [item] else [item] + ItemsOf(checks, groups[1..])
  }

  /** The pairs come in order of their artifact; a failure can only come last. */
  ghost predicate Streamed<A>(items: seq<Item<A>>) {
    && (forall i | 0 <= i < |items| - 1 :: items[i].Pair?)
    && (forall i, j | 0 <= i < j < |items| && items[i].Pair? && items[j].Pair? ::
          !TextBefore(items[j].artifact, items[i].artifact))
  }

  ghost predicate SortedArtifacts<F>(artifacts: seq<Artifact<F>>) {
    forall i, j | 0 <= i < j < |artifacts| :: TextBefore(artifacts[i].hash, artifacts[j].hash)
  }

  /** The plain check: every file verifies, and every pair verifies against an artifact that exists. */
  ghost predicate ItemVerifies<M, O, A, F>(checks: Checks<M, O, A, F>, artifacts: seq<Artifact<F>>, item: Item<A>) {
    item.Pair?
    && exists a :: a in artifacts && a.hash == item.artifact && checks.pairVerifies(a.hash, a.file, item.authority)
  }

  ghost predicate AllVerify<M, O, A, F>(checks: Checks<M, O, A, F>, artifacts: seq<Artifact<F>>, items: seq<Item<A>>) {
    && (forall a | a in artifacts :: checks.fileVerifies(a.hash, a.file))
    && (forall item | item in items :: ItemVerifies(checks, artifacts, item))
  }

  /**
   * The merge keeps one pending item; it moves on past the pairs of each artifact in turn and
   * rejects a pair that was passed over.
   */
  method VerifyArtifacts<M, O, A, F>(checks: Checks<M, O, A, F>, artifacts: seq<Artifact<F>>, items: seq<Item<A>>)
    returns (r: Result<nat, VerifyError>)
    requires SortedArtifacts(artifacts) && Streamed(items)
    ensures r.Ok? <==> AllVerify(checks, artifacts, items)
    ensures r.Ok? ==> r.value == |artifacts|
  {
    var pending, count := 0, 0;
    for i := 0 to |artifacts|
      invariant 0 <= pending <= |items| && count == i
      invariant forall a | a in artifacts[..i] :: checks.fileVerifies(a.hash, a.file)
      invariant forall k | 0 <= k < pending :: ItemVerifies(checks, artifacts, items[k])
      invariant forall k, j | pending <= k < |items| && items[k].Pair? && 0 <= j < i ::
                  TextBefore(artifacts[j].hash, items[k].artifact)
    {
      var a := artifacts[i];
      assert a in artifacts;
      count := count + 1;
      if pending < |items| && items[pending].Broken? {
        assert items[pending] in items;
        return Err(items[pending].error);
      }
      if pending < |items| && TextBefore(items[pending].artifact, a.hash) {
        PassedOver(checks, artifacts, i, items[pending]);
        assert items[pending] in items;
        return Err(ArtifactMissing(items[pending].artifact));
      }
      if !checks.fileVerifies(a.hash, a.file) { return Err(ArtifactInvalid(a.hash)); }
      while pending < |items| && items[pending].Pair? && items[pending].artifact == a.hash
        invariant pending <= |items|
        invariant forall k | 0 <= k < pending :: ItemVerifies(checks, artifacts, items[k])
        invariant forall k, j | pending <= k < |items| && items[k].Pair? && 0 <= j < i ::
                    TextBefore(artifacts[j].hash, items[k].artifact)
        invariant pending < |items| && items[pending].Pair? ==> !TextBefore(items[pending].artifact, a.hash)
      {
        if !checks.pairVerifies(a.hash, a.file, items[pending].authority) {
          OneArtifactPerHash(artifacts, i);
          assert items[pending] in items;
          return Err(BindingInvalid(a.hash));
        }
        pending := pending + 1;
      }
      if pending < |items| && items[pending].Broken? {
        assert items[pending] in items;
        return Err(items[pending].error);
      }
      AllBeyond(items, pending, a.hash);
    }
    assert artifacts[..|artifacts|] == artifacts;
    if pending < |items| {
      assert items[pending] in items;
      if items[pending].Broken? { return Err(items[pending].error); }
      PassedOver(checks, artifacts, |artifacts|, items[pending]);
      return Err(ArtifactMissing(items[pending].artifact));
    }
    r := Ok(count);
  }

  /** An item beyond every earlier artifact and before every later one has no artifact. */
  lemma PassedOver<M, O, A, F>(checks: Checks<M, O, A, F>, artifacts: seq<Artifact<F>>, i: nat, item: Item<A>)
    requires SortedArtifacts(artifacts) && i <= |artifacts| && item.Pair?
    requires forall j | 0 <= j < i :: TextBefore(artifacts[j].hash, item.artifact)
    requires i < |artifacts| ==> TextBefore(item.artifact, artifacts[i].hash)
    ensures !ItemVerifies(checks, artifacts, item)
  {
    forall a | a in artifacts ensures a.hash != item.artifact {
      var k :| 0 <= k < |artifacts| && artifacts[k] == a;
      if k >= i && k > i { TextTransitive(item.artifact, artifacts[i].hash, a.hash); }
      TextIrreflexive(item.artifact);
    }
  }

  lemma OneArtifactPerHash<F>(artifacts: seq<Artifact<F>>, i: nat)
    requires SortedArtifacts(artifacts) && i < |artifacts|
    ensures forall a | a in artifacts && a.hash == artifacts[i].hash :: a == artifacts[i]
  {
    forall a | a in artifacts && a.hash == artifacts[i].hash ensures a == artifacts[i] {
      var k :| 0 <= k < |artifacts| && artifacts[k] == a;
      TextIrreflexive(a.hash);
    }
  }

  /** When the pending pair is beyond an artifact, so is every later pair. */
  lemma AllBeyond<A>(items: seq<Item<A>>, pending: nat, hash: string)
    requires Streamed(items) && pending <= |items|
    requires pending < |items| ==> items[pending].Pair? && items[pending].artifact != hash
                                   && !TextBefore(items[pending].artifact, hash)
    ensures forall k | pending <= k < |items| && items[k].Pair? :: TextBefore(hash, items[k].artifact)
  {
    forall k | pending <= k < |items| && items[k].Pair? ensures TextBefore(hash, items[k].artifact) {
      TextTotal(items[pending].artifact, hash);
      if items[k].artifact != items[pending].artifact {
        TextTotal(items[pending].artifact, items[k].artifact);
        assert pending < k;
        TextTransitive(hash, items[pending].artifact, items[k].artifact);
      }
    }
  }

  /* ---------- the whole artifact check against the tables ---------- */

  method ArtifactStateItems<M, O, A, F>(checks: Checks<M, O, A, F>, rows: seq<PairRow<M, O>>)
    returns (items: seq<Item<A>>)
    ensures items == ItemsOf(checks, GroupsOf(rows))
  {
    var groups := Groups(rows);
    items := [];
    for i := 0 to |groups|
      invariant items + ItemsOf(checks, groups[i..]) == ItemsOf(checks, groups)
    {
      var item := ItemOf(checks, groups[i]);
      assert groups[i..][1..] == groups[i + 1..];
      items := items + [item];
      if item.Broken? { return; }
    }
  }

  /** The plain check of one (artifact, state) pair of the tables. */
  ghost predicate EntryVerifies<M, O, A, F>(checks: Checks<M, O, A, F>, artifacts: seq<Artifact<F>>,
                                            e: PairEntry<M, O>)
  {
    && e.meta.Some?
    && checks.authority(e.meta.value, e.outcomes).Some?
    && exists a :: a in artifacts && a.hash == e.key.0
                   && checks.pairVerifies(a.hash, a.file, checks.authority(e.meta.value, e.outcomes).value)
  }

  ghost predicate SortedByArtifact<M, O>(entries: seq<PairEntry<M, O>>) {
    forall i, j | 0 <= i < j < |entries| :: !TextBefore(entries[j].key.0, entries[i].key.0)
  }

  /** Every pair is of one of the entries. */
  ghost predicate FromEntries<M, O, A>(items: seq<Item<A>>, entries: seq<PairEntry<M, O>>) {
    forall item | item in items && item.Pair? :: exists e :: e in entries && e.key.0 == item.artifact
  }

  lemma {:induction false} ItemsAreStreamed<M, O, A, F>(checks: Checks<M, O, A, F>, entries: seq<PairEntry<M, O>>)
    requires SortedByArtifact(entries)
    ensures Streamed(ItemsOf(checks, entries)) && FromEntries(ItemsOf(checks, entries), entries)
  {
    if entries != [] {
      ItemsAreStreamed(checks, entries[1..]);
      var head, tail := ItemOf(checks, entries[0]), ItemsOf(checks, entries[1..]);
      assert entries[0] in entries && forall e | e in entries[1..] :: e in entries;
      if head.Pair? { PairComesFirst(head, tail, entries); }
    }
  }

  lemma PairComesFirst<M, O, A>(head: Item<A>, tail: seq<Item<A>>, entries: seq<PairEntry<M, O>>)
    requires entries != [] && SortedByArtifact(entries) && head.Pair? && head.artifact == entries[0].key.0
    requires Streamed(tail) && FromEntries(tail, entries[1..])
    ensures Streamed([head] + tail) && FromEntries([head] + tail, entries)
  {
    assert entries[0] in entries && forall e | e in entries[1..] :: e in entries;
    forall j | 0 <= j < |tail| && tail[j].Pair? ensures !TextBefore(tail[j].artifact, head.artifact) {
      assert tail[j] in tail;
      var e :| e in entries[1..] && e.key.0 == tail[j].artifact;
      var k :| 0 <= k < |entries[1..]| && entries[1..][k] == e;
      assert entries[k + 1] == e;
    }
  }

  lemma {:induction false} ItemsVerifyIffEntriesDo<M, O, A, F>(checks: Checks<M, O, A, F>, artifacts: seq<Artifact<F>>,
                                                              entries: seq<PairEntry<M, O>>)
    ensures (forall item | item in ItemsOf(checks, entries) :: ItemVerifies(checks, artifacts, item))
       <==> (forall e | e in entries :: EntryVerifies(checks, artifacts, e))
  {
    if entries != [] {
      var head, tail := ItemOf(checks, entries[0]), ItemsOf(checks, entries[1..]);
      ItemsVerifyIffEntriesDo(checks, artifacts, entries[1..]);
      assert ItemVerifies(checks, artifacts, head) <==> EntryVerifies(checks, artifacts, entries[0]);
      assert entries[0] in entries && head in ItemsOf(checks, entries);
      assert forall e :: e in entries <==> e == entries[0] || e in entries[1..];
      assert head.Pair? ==> forall item :: item in ItemsOf(checks, entries) <==> item == head || item in tail;
    }
  }

  /**
   * For any tables queried in order, grouping the joined rows in one pass and merging them with
   * the artifacts accepts exactly when every file verifies and every referenced pair verifies
   * against an artifact and a state that exist.
   */
  method VerifyStoredArtifacts<M, O, A, F>(checks: Checks<M, O, A, F>, artifacts: seq<Artifact<F>>,
                                           rows: seq<PairRow<M, O>>, ghost entries: seq<PairEntry<M, O>>)
    returns (r: Result<nat, VerifyError>)
    requires SortedArtifacts(artifacts)
    requires rows == LeftJoin(entries) && DistinctKeys(entries) && SortedByArtifact(entries)
    ensures r.Ok? <==> (forall a | a in artifacts :: checks.fileVerifies(a.hash, a.file))
                       && (forall e | e in entries :: EntryVerifies(checks, artifacts, e))
    ensures r.Ok? ==> r.value == |artifacts|
  {
    GroupingInvertsLeftJoin(entries);
    ItemsAreStreamed(checks, entries);
    ItemsVerifyIffEntriesDo(checks, artifacts, entries);
    var items := ArtifactStateItems(checks, rows);
    r := VerifyArtifacts(checks, artifacts, items);
  }
}
