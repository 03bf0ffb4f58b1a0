/** One-pass grouping of the sorted rows of a left join gives back exactly the joined tables. */
module LeftJoins {
  import opened Wrappers

  /** One row of the query: the left-hand columns, and the right-hand ones when there is a match. */
  datatype JoinRow<K, M, O> = JoinRow(key: K, meta: M, outcome: Option<O>)

  /** One left-hand entity with all of its right-hand members. */
  datatype Entry<K, M, O> = Entry(key: K, meta: M, outcomes: seq<O>)

  function Member<O>(outcome: Option<O>): seq<O> {
    if outcome.Some? then [outcome.value] else []
  }

  /** The rows of one entry: one per member, or a single row without a member. */
  function JoinOne<K, M, O>(entry: Entry<K, M, O>): seq<JoinRow<K, M, O>> {
    if entry.outcomes == [] then [JoinRow(entry.key, entry.meta, None)]
    else seq(|entry.outcomes|, i requires 0 <= i < |entry.outcomes| =>
               JoinRow(entry.key, entry.meta, Some(entry.outcomes[i])))
  }

  function LeftJoin<K, M, O>(entries: seq<Entry<K, M, O>>): seq<JoinRow<K, M, O>> {
    if entries == [] then [] else LeftJoin(entries[..|entries| - 1]) + JoinOne(entries[|entries| - 1])
  }

  /** A row joins the last group if it has its key, and otherwise opens a group. */
  function Extend<K(==), M, O>(groups: seq<Entry<K, M, O>>, row: JoinRow<K, M, O>): seq<Entry<K, M, O>> {
    if groups != [] && groups[|groups| - 1].key == row.key then
      var last := groups[|groups| - 1];
      groups[..|groups| - 1] + [last.(outcomes := last.outcomes + Member(row.outcome))]
    else groups + [Entry(row.key, row.meta, Member(row.outcome))]
  }

  /** The runs of rows with equal keys. */
  function GroupsOf<K(==), M, O>(rows: seq<JoinRow<K, M, O>>): seq<Entry<K, M, O>> {
    if rows == [] then [] else Extend(GroupsOf(rows[..|rows| - 1]), rows[|rows| - 1])
  }

  /** The streaming pass: remember the current key, its metadata and the members seen so far. */
  method Groups<K(==), M, O>(rows: seq<JoinRow<K, M, O>>) returns (groups: seq<Entry<K, M, O>>)
    ensures groups == GroupsOf(rows)
  {
    groups := [];
    var current: Option<K> := None;
    var metadata: Option<M> := None;
    var outcomes: seq<O> := [];
    for i := 0 to |rows|
      invariant current.Some? <==> metadata.Some?
      invariant current.None? ==> i == 0 && groups == [] && outcomes == []
      invariant GroupsOf(rows[..i])
             == groups + if current.Some? then [Entry(current.value, metadata.value, outcomes)] else []
    {
      var row := rows[i];
      GroupsOneMore(rows, i);
      if current.Some? { ExtendPending(groups, Entry(current.value, metadata.value, outcomes), row); }
      if current.Some? && row.key != current.value {
        groups := groups + [Entry(current.value, metadata.value, outcomes)];
        outcomes := [];
      }
      if current != Some(row.key) {
        current := Some(row.key);
        metadata := Some(row.meta);
      }
      MemberAppends(outcomes, row.outcome);
      if row.outcome.Some? { outcomes := outcomes + [row.outcome.value]; }
    }
    assert rows[..|rows|] == rows;
    if current.Some? { groups := groups + [Entry(current.value, metadata.value, outcomes)]; }
  }

  lemma GroupsOneMore<K, M, O>(rows: seq<JoinRow<K, M, O>>, i: nat)
    requires i < |rows|
    ensures GroupsOf(rows[..i + 1]) == Extend(GroupsOf(rows[..i]), rows[i])
  {
    assert rows[..i + 1][..i] == rows[..i];
  }

  lemma MemberAppends<O>(outcomes: seq<O>, outcome: Option<O>)
    ensures outcomes + Member(outcome) == if outcome.Some? then outcomes + [outcome.value] else outcomes
    ensures outcomes == [] ==> outcomes + Member(outcome) == Member(outcome)
  {
  }

  lemma ExtendPending<K, M, O>(groups: seq<Entry<K, M, O>>, pending: Entry<K, M, O>, row: JoinRow<K, M, O>)
    ensures Extend(groups + [pending], row)
         == if pending.key == row.key
            then groups + [pending.(outcomes := pending.outcomes + Member(row.outcome))]
            else groups + [pending] + [Entry(row.key, row.meta, Member(row.outcome))]
  {
    assert (groups + [pending])[..|groups|] == groups;
  }

  ghost predicate DistinctKeys<K, M, O>(entries: seq<Entry<K, M, O>>) {
    forall i, j | 0 <= i < j < |entries| :: entries[i].key != entries[j].key
  }

  /** Grouping undoes the left join: one group per entry, with exactly its members, none included. */
  lemma {:induction false} GroupingInvertsLeftJoin<K, M, O>(entries: seq<Entry<K, M, O>>)
    requires DistinctKeys(entries)
    ensures GroupsOf(LeftJoin(entries)) == entries
  {
    if entries != [] {
      var init, last := entries[..|entries| - 1], entries[|entries| - 1];
      assert entries == init + [last];
      DistinctBefore(init, last);
      GroupingInvertsLeftJoin(init);
      LeftJoinOneMore(init, last);
      JoinedEntryIsGrouped(LeftJoin(init), init, last);
    }
  }

  lemma LeftJoinOneMore<K, M, O>(init: seq<Entry<K, M, O>>, last: Entry<K, M, O>)
    ensures LeftJoin(init + [last]) == LeftJoin(init) + JoinOne(last)
  {
    assert (init + [last])[..|init|] == init;
  }

  lemma DistinctBefore<K, M, O>(init: seq<Entry<K, M, O>>, last: Entry<K, M, O>)
    requires DistinctKeys(init + [last])
    ensures DistinctKeys(init) && forall i | 0 <= i < |init| :: init[i].key != last.key
  {
    var all := init + [last];
    forall i | 0 <= i < |init| ensures init[i].key != last.key { assert all[i].key != all[|init|].key; }
    forall i, j | 0 <= i < j < |init| ensures init[i].key != init[j].key { assert all[i].key != all[j].key; }
  }

  lemma JoinedEntryIsGrouped<K, M, O>(rows: seq<JoinRow<K, M, O>>, init: seq<Entry<K, M, O>>, last: Entry<K, M, O>)
    requires GroupsOf(rows) == init && (forall i | 0 <= i < |init| :: init[i].key != last.key)
    ensures GroupsOf(rows + JoinOne(last)) == init + [last]
  {
    var joined := JoinOne(last);
    GroupsAfterPrefix(rows, init, last, |joined|);
    assert joined[..|joined|] == joined && last.outcomes[..|last.outcomes|] == last.outcomes;
  }

  lemma {:induction false} GroupsAfterPrefix<K, M, O>(rows: seq<JoinRow<K, M, O>>, init: seq<Entry<K, M, O>>,
                                                     last: Entry<K, M, O>, n: nat)
    requires GroupsOf(rows) == init && (forall i | 0 <= i < |init| :: init[i].key != last.key)
    requires 1 <= n <= |JoinOne(last)|
    ensures GroupsOf(rows + JoinOne(last)[..n])
         == init + [last.(outcomes := if last.outcomes == [] then [] else last.outcomes[..n])]
  {
    var row, rest := JoinOne(last)[n - 1], rows + JoinOne(last)[..n - 1];
    assert rows + JoinOne(last)[..n] == rest + [row];
    GroupsAppend(rest, row);
    if n == 1 {
      assert rest == rows;
      OpensGroup(init, last);
    } else {
      GroupsAfterPrefix(rows, init, last, n - 1);
      ExtendPending(init, last.(outcomes := last.outcomes[..n - 1]), row);
      NextMember(last, n);
    }
  }

  lemma GroupsAppend<K, M, O>(rows: seq<JoinRow<K, M, O>>, row: JoinRow<K, M, O>)
    ensures GroupsOf(rows + [row]) == Extend(GroupsOf(rows), row)
  {
    assert (rows + [row])[..|rows|] == rows;
  }

  lemma OpensGroup<K, M, O>(init: seq<Entry<K, M, O>>, last: Entry<K, M, O>)
    requires forall i | 0 <= i < |init| :: init[i].key != last.key
    ensures Extend(init, JoinOne(last)[0])
         == init + [last.(outcomes := if last.outcomes == [] then [] else last.outcomes[..1])]
  {
    assert last.outcomes != [] ==> last.outcomes[..1] == [last.outcomes[0]];
  }

  lemma NextMember<K, M, O>(last: Entry<K, M, O>, n: nat)
    requires 2 <= n <= |JoinOne(last)|
    ensures JoinOne(last)[n - 1].key == last.key && n <= |last.outcomes|
    ensures last.outcomes[..n - 1] + Member(JoinOne(last)[n - 1].outcome) == last.outcomes[..n]
  {
    assert last.outcomes[..n] == last.outcomes[..n - 1] + [last.outcomes[n - 1]];
  }
}
