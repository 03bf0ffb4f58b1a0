/** Sorting by a key: the one sorted listing of a finite set, and how to compute it. */
module Ordering {

  function Elems<T(==)>(s: seq<T>): set<T> {
    set x | x in s
  }

  /** `before` orders the members of `elems` strictly and totally. */
  ghost predicate StrictTotalOn<T(!new)>(before: (T, T) -> bool, elems: set<T>) {
    && (forall x | x in elems :: !before(x, x))
    && (forall x, y | x in elems && y in elems && x != y :: before(x, y) || before(y, x))
    && (forall x, y, z | x in elems && y in elems && z in elems && before(x, y) && before(y, z) :: before(x, z))
  }

  ghost predicate SortedBy<T>(before: (T, T) -> bool, s: seq<T>) {
    forall i, j | 0 <= i < j < |s| :: before(s[i], s[j])
  }

  /** `s` lists each member of `elems` once, in order. */
  ghost predicate IsListing<T(!new)>(before: (T, T) -> bool, elems: set<T>, s: seq<T>) {
    SortedBy(before, s) && forall x :: x in elems <==> x in s
  }

  function Insert<T(==)>(before: (T, T) -> bool, x: T, s: seq<T>): seq<T> {
    if s == [] then [x]
    else if x == s[0] then s
    else if before(x, s[0]) then [x] + s
    else [s[0]] + Insert(before, x, s[1..])
  }

  /** The distinct members of `s` in order: equal values are listed once. */
  function Sort<T(==)>(before: (T, T) -> bool, s: seq<T>): seq<T> {
    if s == [] then [] else Insert(before, s[|s| - 1], Sort(before, s[..|s| - 1]))
  }

  /** A value before all others comes first. */
  lemma PrependLists<T(!new)>(before: (T, T) -> bool, elems: set<T>, first: T, s: seq<T>)
    requires IsListing(before, elems, s) && forall y | y in elems :: before(first, y)
    ensures IsListing(before, elems + {first}, [first] + s)
  {
    var t := [first] + s;
    forall i, j | 0 <= i < j < |t| ensures before(t[i], t[j]) {
      if i == 0 { assert s[j - 1] in elems; } else { assert before(s[i - 1], s[j - 1]); }
    }
  }

  lemma HeadIsFirst<T(!new)>(before: (T, T) -> bool, elems: set<T>, s: seq<T>)
    requires IsListing(before, elems, s) && s != []
    ensures s[0] in elems && forall y | y in elems && y != s[0] :: before(s[0], y)
  {
    assert s[0] in s;
    forall y | y in elems && y != s[0] ensures before(s[0], y) {
      var k :| 0 <= k < |s| && s[k] == y;
    }
  }

  lemma {:induction false} InsertLists<T(!new)>(before: (T, T) -> bool, elems: set<T>, x: T, s: seq<T>)
    requires StrictTotalOn(before, elems + {x}) && IsListing(before, elems, s)
    ensures IsListing(before, elems + {x}, Insert(before, x, s))
  {
    if s == [] {
      PrependLists(before, elems, x, s);
    } else {
      HeadIsFirst(before, elems, s);
      if x == s[0] {
        assert elems + {x} == elems;
      } else if before(x, s[0]) {
        PrependLists(before, elems, x, s);
      } else {
        var rest := elems - {s[0]};
        ListingTail(before, elems, s);
        InsertLists(before, rest, x, s[1..]);
        PrependLists(before, rest + {x}, s[0], Insert(before, x, s[1..]));
        assert rest + {x} + {s[0]} == elems + {x};
      }
    }
  }

  lemma {:induction false} SortLists<T(!new)>(before: (T, T) -> bool, s: seq<T>)
    requires StrictTotalOn(before, Elems(s))
    ensures IsListing(before, Elems(s), Sort(before, s))
  {
    if s != [] {
      var x, init := s[|s| - 1], s[..|s| - 1];
      assert s == init + [x];
      assert Elems(s) == Elems(init) + {x};
      SortLists(before, init);
      InsertLists(before, Elems(init), x, Sort(before, init));
    }
  }

  lemma SomeMember<T(!new)>(s: set<T>)
    ensures s == {} || exists x :: x in s
  {
    if !exists x :: x in s { assert s == {}; }
  }

  /** The same of integers, for which the general lemma is of no use to the verifier. */
  lemma SomeNumber(s: set<int>)
    ensures s == {} || exists n :: n in s
  {
    if !exists n :: n in s { assert s == {}; }
  }

  lemma NonemptyHasMember<T(!new)>(s: seq<T>)
    requires s != []
    ensures exists x :: x in s
  {
    assert s[0] in s;
  }

  /** A set has one listing in a given order. */
  lemma {:induction false} ListingUnique<T(!new)>(before: (T, T) -> bool, elems: set<T>, s: seq<T>, t: seq<T>)
    requires StrictTotalOn(before, elems)
    requires IsListing(before, elems, s) && IsListing(before, elems, t)
    ensures s == t
    decreases |s|
  {
    if s == [] {
      if t != [] { NonemptyHasMember(t); }
    } else {
      assert s[0] in elems && s[0] in t;
      assert t[0] in elems && t[0] in s;
      var i :| 0 <= i < |t| && t[i] == s[0];
      var j :| 0 <= j < |s| && s[j] == t[0];
      assert s[0] == t[0];
      var rest := elems - {s[0]};
      ListingTail(before, elems, s);
      ListingTail(before, elems, t);
      ListingUnique(before, rest, s[1..], t[1..]);
      assert s == [s[0]] + s[1..] && t == [t[0]] + t[1..];
    }
  }

  lemma ListingTail<T(!new)>(before: (T, T) -> bool, elems: set<T>, s: seq<T>)
    requires StrictTotalOn(before, elems)
    requires s != [] && IsListing(before, elems, s)
    ensures IsListing(before, elems - {s[0]}, s[1..])
  {
    var rest := elems - {s[0]};
    assert s[0] in elems;
    forall y | y in s[1..] ensures y in rest {
      var k :| 0 <= k < |s[1..]| && s[1..][k] == y;
      assert before(s[0], s[k + 1]);
      assert s[k + 1] in elems;
    }
    forall y | y in rest ensures y in s[1..] {
      assert y in s;
      var k :| 0 <= k < |s| && s[k] == y;
      assert s[1..][k - 1] == y;
    }
  }

  /** Sorting depends only on which values occur, not on their order or repetition. */
  lemma SortDependsOnElems<T(!new)>(before: (T, T) -> bool, s: seq<T>, t: seq<T>)
    requires StrictTotalOn(before, Elems(s)) && Elems(s) == Elems(t)
    ensures Sort(before, s) == Sort(before, t)
  {
    SortLists(before, s);
    SortLists(before, t);
    ListingUnique(before, Elems(s), Sort(before, s), Sort(before, t));
  }
}
