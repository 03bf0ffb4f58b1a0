/** Canonical outcome lists: one response has one identity, whatever order its members came in. */
module OddsIdentity {
  import opened Wrappers
  import opened Ordering
  import opened TextOrder

  /** A field as it arrives: text, a finite number kept exactly, or something else. */
  datatype Field = Null | Flag(value: bool) | Whole(n: int) | Decimal(x: real) | NotFinite | Text(text: string) | Opaque

  type RawOutcome = seq<Field>

  datatype Outcome = Outcome(
    oddsId: string,
    groupId: Option<string>,
    price: real,
    status: Option<string>,
    marketType: string,
    period: string,
    side: Option<string>,
    line: Option<real>,
    outcomeKey: string,
    supported: bool,
    lastUpdate: Option<string>)

  datatype IdentityError =
    | WrongFieldCount | BadOddsId | DuplicateOddsId | BadPrice | BadLine | BadSupported | BadText

  /* ---------- one outcome ---------- */

  /** The value of a finite number; a boolean is not a number here. */
  function Number(f: Field): Option<real> {
    match f
    case Whole(n) => Some(n as real)
    case Decimal(x) => Some(x)
    case _ => None
  }

  predicate TextOrNull(f: Field) {
    f.Null? || f.Text?
  }

  function OptionalText(f: Field): Option<string> {
    if f.Text? then Some(f.text) else None
  }

  /** The checks on one outcome apart from its odds id, in the order they are made. */
  function FieldFault(raw: RawOutcome): Option<IdentityError>
    requires |raw| == 11
  {
    if Number(raw[2]).None? then Some(BadPrice)
    else if !raw[7].Null? && Number(raw[7]).None? then Some(BadLine)
    else if Number(raw[9]) != Some(0.0) && Number(raw[9]) != Some(1.0) then Some(BadSupported)
    else if !(raw[4].Text? && raw[4].text != "" && raw[5].Text? && raw[5].text != "") then Some(BadText)
    else if !raw[8].Text? || (Number(raw[9]) == Some(1.0) && raw[8].text == "") then Some(BadText)
    else if !(TextOrNull(raw[1]) && TextOrNull(raw[3]) && TextOrNull(raw[6]) && TextOrNull(raw[10])) then Some(BadText)
    else None
  }

  predicate ValidRaw(raw: RawOutcome) {
    |raw| == 11 && raw[0].Text? && raw[0].text != "" && FieldFault(raw).None?
  }

  /** The semantic member a valid raw outcome stands for, with its numbers normalized. */
  function Normalize(raw: RawOutcome): Outcome
    requires ValidRaw(raw)
  {
    Outcome(raw[0].text, OptionalText(raw[1]), Number(raw[2]).value, OptionalText(raw[3]), raw[4].text, raw[5].text,
            OptionalText(raw[6]), Number(raw[7]), raw[8].text, Number(raw[9]) == Some(1.0), OptionalText(raw[10]))
  }

  ghost predicate AllValid(raws: seq<RawOutcome>) {
    forall i | 0 <= i < |raws| :: ValidRaw(raws[i])
  }

  function NormalizeAll(raws: seq<RawOutcome>): (outcomes: seq<Outcome>)
    requires forall i | 0 <= i < |raws| :: ValidRaw(raws[i])
  {
    seq(|raws|, i requires 0 <= i < |raws| => Normalize(raws[i]))
  }

  /* ---------- the canonical list ---------- */

  predicate OddsIdBefore(a: Outcome, b: Outcome) {
    TextBefore(a.oddsId, b.oddsId)
  }

  ghost predicate DistinctIds(outcomes: seq<Outcome>) {
    forall i, j | 0 <= i < j < |outcomes| :: outcomes[i].oddsId != outcomes[j].oddsId
  }

  ghost predicate ValidResponse(raws: seq<RawOutcome>) {
    AllValid(raws) && DistinctIds(NormalizeAll(raws))
  }

  ghost function Canonical(raws: seq<RawOutcome>): seq<Outcome>
    requires ValidResponse(raws)
  {
    Sort(OddsIdBefore, NormalizeAll(raws))
  }

  /** What is wrong with the next outcome after valid ones, in the order the checks are made. */
  ghost function RowFault(before: seq<RawOutcome>, raw: RawOutcome): Option<IdentityError>
    requires AllValid(before)
  {
    if |raw| != 11 then Some(WrongFieldCount)
    else if !raw[0].Text? || raw[0].text == "" then Some(BadOddsId)
    else if exists k :: 0 <= k < |before| && before[k][0].text == raw[0].text then Some(DuplicateOddsId)
    else FieldFault(raw)
  }

  /** The outcomes before place `i` make a valid response, and the one there has this fault. */
  ghost predicate FirstFaultAt(raws: seq<RawOutcome>, i: nat, error: IdentityError)
    requires i < |raws|
  {
    ValidResponse(raws[..i]) && RowFault(raws[..i], raws[i]) == Some(error)
  }

  lemma FaultIsInvalid(raws: seq<RawOutcome>, i: nat, error: IdentityError)
    requires i < |raws| && FirstFaultAt(raws, i, error)
    ensures !ValidResponse(raws)
  {
    if AllValid(raws) {
      var k :| 0 <= k < i && raws[..i][k][0].text == raws[i][0].text;
      assert NormalizeAll(raws)[k].oddsId == NormalizeAll(raws)[i].oddsId;
    }
  }

  lemma OneMoreOutcome(before: seq<RawOutcome>, raw: RawOutcome)
    requires ValidResponse(before) && RowFault(before, raw).None?
    ensures ValidResponse(before + [raw]) && NormalizeAll(before + [raw]) == NormalizeAll(before) + [Normalize(raw)]
  {
    var all := before + [raw];
    assert AllValid(all);
    forall k, l | 0 <= k < l < |all| ensures NormalizeAll(all)[k].oddsId != NormalizeAll(all)[l].oddsId {
      if l < |before| { assert NormalizeAll(before)[k].oddsId != NormalizeAll(before)[l].oddsId; }
    }
  }

  method CanonicalStateOutcomes(raws: seq<RawOutcome>) returns (r: Result<seq<Outcome>, IdentityError>)
    ensures r.Ok? <==> ValidResponse(raws)
    ensures r.Ok? ==> r.value == Canonical(raws) && IsListing(OddsIdBefore, Elems(NormalizeAll(raws)), r.value)
    ensures r.Err? ==> exists i :: 0 <= i < |raws| && FirstFaultAt(raws, i, r.error)
  {
    var canonical: seq<Outcome> := [];
    var seen: set<string> := {};
    for i := 0 to |raws|
      invariant ValidResponse(raws[..i]) && canonical == NormalizeAll(raws[..i])
      invariant forall id :: id in seen <==> exists k :: 0 <= k < i && raws[..i][k][0].text == id
    {
      var raw := raws[i];
      var fault := OutcomeFault(raws[..i], seen, raw);
      if fault.Some? {
        FaultIsInvalid(raws, i, fault.value);
        assert FirstFaultAt(raws, i, fault.value);
        return Err(fault.value);
      }
      OneMoreOutcome(raws[..i], raw);
      assert raws[..i + 1] == raws[..i] + [raw];
      seen := seen + {raw[0].text};
      canonical := canonical + [Normalize(raw)];
    }
    assert raws[..|raws|] == raws;
    CanonicalIsListed(raws);
    r := Ok(Sort(OddsIdBefore, canonical));
  }

  /** The checks on one outcome, given the odds ids seen so far. */
  method OutcomeFault(ghost before: seq<RawOutcome>, seen: set<string>, raw: RawOutcome)
    returns (fault: Option<IdentityError>)
    requires AllValid(before)
    requires forall id :: id in seen <==> exists k :: 0 <= k < |before| && before[k][0].text == id
    ensures fault == RowFault(before, raw)
  {
    if |raw| != 11 { return Some(WrongFieldCount); }
    if !raw[0].Text? || raw[0].text == "" { return Some(BadOddsId); }
    if raw[0].text in seen { return Some(DuplicateOddsId); }
    fault := FieldFault(raw);
  }

  lemma IdsOrderOutcomes(outcomes: seq<Outcome>)
    requires DistinctIds(outcomes)
    ensures StrictTotalOn(OddsIdBefore, Elems(outcomes))
  {
    var ids := set o | o in outcomes :: o.oddsId;
    TextOrderIsStrictTotal(ids);
    forall a, b | a in Elems(outcomes) && b in Elems(outcomes) && a != b
      ensures OddsIdBefore(a, b) || OddsIdBefore(b, a)
    {
      var i :| 0 <= i < |outcomes| && outcomes[i] == a;
      var j :| 0 <= j < |outcomes| && outcomes[j] == b;
      assert i < j || j < i;
      assert a.oddsId in ids && b.oddsId in ids;
    }
    forall a, b, c | a in Elems(outcomes) && b in Elems(outcomes) && c in Elems(outcomes)
                     && OddsIdBefore(a, b) && OddsIdBefore(b, c)
      ensures OddsIdBefore(a, c)
    {
      TextTransitive(a.oddsId, b.oddsId, c.oddsId);
    }
    forall a | a in Elems(outcomes) ensures !OddsIdBefore(a, a) { TextIrreflexive(a.oddsId); }
  }

  /** Members come strictly by increasing odds id, and they are exactly the normalized members given. */
  lemma CanonicalIsListed(raws: seq<RawOutcome>)
    requires ValidResponse(raws)
    ensures IsListing(OddsIdBefore, Elems(NormalizeAll(raws)), Canonical(raws))
    ensures DistinctIds(Canonical(raws))
  {
    IdsOrderOutcomes(NormalizeAll(raws));
    SortLists(OddsIdBefore, NormalizeAll(raws));
    var sorted := Canonical(raws);
    forall i, j | 0 <= i < j < |sorted| ensures sorted[i].oddsId != sorted[j].oddsId {
      assert OddsIdBefore(sorted[i], sorted[j]);
      TextIrreflexive(sorted[i].oddsId);
    }
  }

  /* ---------- identity ---------- */

  /** The v2 manifest encodes the ordered members one to one, so it is represented by them. */
  ghost function ManifestV2(raws: seq<RawOutcome>): seq<Outcome>
    requires ValidResponse(raws)
  {
    Canonical(raws)
  }

  datatype LegacyMember = LegacyMember(oddsId: string, price: real, status: string, lastUpdate: Option<string>)

  /** The v1 subset writes a missing status as text. */
  function Legacy(o: Outcome): LegacyMember {
    LegacyMember(o.oddsId, o.price, if o.status.Some? then o.status.value else "None", o.lastUpdate)
  }

  function LegacyAll(outcomes: seq<Outcome>): seq<LegacyMember> {
    seq(|outcomes|, i requires 0 <= i < |outcomes| => Legacy(outcomes[i]))
  }

  predicate OptionalTextBefore(a: Option<string>, b: Option<string>) {
    b.Some? && (a.None? || TextBefore(a.value, b.value))
  }

  /** The order of the legacy tuples, member by member. */
  predicate LegacyBefore(a: LegacyMember, b: LegacyMember) {
    if a.oddsId != b.oddsId then TextBefore(a.oddsId, b.oddsId)
    else if a.price != b.price then a.price < b.price
    else if a.status != b.status then TextBefore(a.status, b.status)
    else OptionalTextBefore(a.lastUpdate, b.lastUpdate)
  }

  /** The v1 manifest encodes the legacy tuples of the canonical members, sorted as tuples. */
  ghost function ManifestV1(raws: seq<RawOutcome>): seq<LegacyMember>
    requires ValidResponse(raws)
  {
    Sort(LegacyBefore, LegacyAll(Canonical(raws)))
  }

  lemma OptionalTextIsOrdered(a: Option<string>, b: Option<string>, c: Option<string>)
    ensures !OptionalTextBefore(a, a)
    ensures a != b ==> OptionalTextBefore(a, b) || OptionalTextBefore(b, a)
    ensures OptionalTextBefore(a, b) && OptionalTextBefore(b, c) ==> OptionalTextBefore(a, c)
  {
    if a.Some? { TextIrreflexive(a.value); }
    if a.Some? && b.Some? && a != b { TextTotal(a.value, b.value); }
    if a.Some? && b.Some? && c.Some? && TextBefore(a.value, b.value) && TextBefore(b.value, c.value) {
      TextTransitive(a.value, b.value, c.value);
    }
  }

  lemma LegacyIsTransitive(x: LegacyMember, y: LegacyMember, z: LegacyMember)
    requires LegacyBefore(x, y) && LegacyBefore(y, z)
    ensures LegacyBefore(x, z)
  {
    TextIrreflexive(x.oddsId);
    TextIrreflexive(x.status);
    OptionalTextIsOrdered(x.lastUpdate, y.lastUpdate, z.lastUpdate);
    if x.oddsId != y.oddsId && y.oddsId != z.oddsId {
      TextTransitive(x.oddsId, y.oddsId, z.oddsId);
    } else if x.status != y.status && y.status != z.status && TextBefore(x.status, y.status)
              && TextBefore(y.status, z.status)
    {
      TextTransitive(x.status, y.status, z.status);
    }
  }

  /** Tuples are ordered strictly and totally. */
  lemma LegacyIsTotal(elems: set<LegacyMember>)
    ensures StrictTotalOn(LegacyBefore, elems)
  {
    forall x | x in elems ensures !LegacyBefore(x, x) { OptionalTextIsOrdered(x.lastUpdate, None, None); }
    forall x, y | x in elems && y in elems && x != y ensures LegacyBefore(x, y) || LegacyBefore(y, x) {
      if x.oddsId != y.oddsId { TextTotal(x.oddsId, y.oddsId); }
      if x.status != y.status { TextTotal(x.status, y.status); }
      OptionalTextIsOrdered(x.lastUpdate, y.lastUpdate, None);
    }
    forall x, y, z | x in elems && y in elems && z in elems && LegacyBefore(x, y) && LegacyBefore(y, z)
      ensures LegacyBefore(x, z)
    {
      LegacyIsTransitive(x, y, z);
    }
  }

  /** Sorting the legacy tuples changes nothing: they already come in the order of their odds ids. */
  lemma LegacyKeepsTheOrder(raws: seq<RawOutcome>)
    requires ValidResponse(raws)
    ensures ManifestV1(raws) == LegacyAll(Canonical(raws))
  {
    CanonicalIsListed(raws);
    var members := LegacyAll(Canonical(raws));
    LegacyIsTotal(Elems(members));
    SortLists(LegacyBefore, members);
    forall i, j | 0 <= i < j < |members| ensures LegacyBefore(members[i], members[j]) {
      assert OddsIdBefore(Canonical(raws)[i], Canonical(raws)[j]);
    }
    ListingUnique(LegacyBefore, Elems(members), ManifestV1(raws), members);
  }

  lemma {:induction false} MultisetHasNoRepeats(outcomes: seq<Outcome>)
    requires DistinctIds(outcomes)
    ensures forall o :: multiset(outcomes)[o] == if o in outcomes then 1 else 0
  {
    if outcomes != [] {
      var init, last := outcomes[..|outcomes| - 1], outcomes[|outcomes| - 1];
      assert outcomes == init + [last];
      MultisetHasNoRepeats(init);
      assert last !in init;
    }
  }

  lemma SameMembersIffPermutation(a: seq<Outcome>, b: seq<Outcome>)
    requires DistinctIds(a) && DistinctIds(b)
    ensures multiset(a) == multiset(b) <==> Elems(a) == Elems(b)
  {
    MultisetHasNoRepeats(a);
    MultisetHasNoRepeats(b);
    assert forall o :: o in a <==> o in Elems(a);
    assert forall o :: o in b <==> o in Elems(b);
    if multiset(a) == multiset(b) {
      forall o ensures o in Elems(a) <==> o in Elems(b) {
        assert multiset(a)[o] == multiset(b)[o];
      }
    }
  }

  /** Two responses have the same identity exactly when their normalized members are the same up to order. */
  lemma IdentityIffPermutation(a: seq<RawOutcome>, b: seq<RawOutcome>)
    requires ValidResponse(a) && ValidResponse(b)
    ensures ManifestV2(a) == ManifestV2(b) <==> multiset(NormalizeAll(a)) == multiset(NormalizeAll(b))
  {
    SameMembersIffPermutation(NormalizeAll(a), NormalizeAll(b));
    CanonicalIsListed(a);
    CanonicalIsListed(b);
    IdsOrderOutcomes(NormalizeAll(a));
    if Elems(NormalizeAll(a)) == Elems(NormalizeAll(b)) {
      ListingUnique(OddsIdBefore, Elems(NormalizeAll(a)), Canonical(a), Canonical(b));
    }
    if Canonical(a) == Canonical(b) {
      assert forall o :: o in Elems(NormalizeAll(a)) <==> o in Canonical(a);
      assert forall o :: o in Elems(NormalizeAll(b)) <==> o in Canonical(b);
      assert Elems(NormalizeAll(a)) == Elems(NormalizeAll(b));
    }
  }

  lemma {:induction false} LegacyHasNoRepeats(members: seq<LegacyMember>)
    requires forall i, j | 0 <= i < j < |members| :: members[i].oddsId != members[j].oddsId
    ensures forall m :: multiset(members)[m] == if m in members then 1 else 0
  {
    if members != [] {
      var init, last := members[..|members| - 1], members[|members| - 1];
      assert members == init + [last];
      LegacyHasNoRepeats(init);
      assert last !in init;
    }
  }

  lemma SameLegacyMembersIffPermutation(a: seq<LegacyMember>, b: seq<LegacyMember>)
    requires forall i, j | 0 <= i < j < |a| :: a[i].oddsId != a[j].oddsId
    requires forall i, j | 0 <= i < j < |b| :: b[i].oddsId != b[j].oddsId
    ensures multiset(a) == multiset(b) <==> Elems(a) == Elems(b)
  {
    LegacyHasNoRepeats(a);
    LegacyHasNoRepeats(b);
    assert forall m :: m in a <==> m in Elems(a);
    assert forall m :: m in b <==> m in Elems(b);
    if multiset(a) == multiset(b) {
      forall m ensures m in Elems(a) <==> m in Elems(b) {
        assert multiset(a)[m] == multiset(b)[m];
      }
    }
  }

  /** The v1 manifest lists the legacy tuples of the normalized members, each once. */
  lemma LegacyIsListed(raws: seq<RawOutcome>)
    requires ValidResponse(raws)
    ensures var members := LegacyAll(NormalizeAll(raws));
            && (forall i, j | 0 <= i < j < |members| :: members[i].oddsId != members[j].oddsId)
            && IsListing(LegacyBefore, Elems(members), ManifestV1(raws))
  {
    CanonicalIsListed(raws);
    var outcomes, canonical := NormalizeAll(raws), Canonical(raws);
    LegacyIsTotal(Elems(LegacyAll(canonical)));
    SortLists(LegacyBefore, LegacyAll(canonical));
    forall m ensures m in Elems(LegacyAll(outcomes)) <==> m in Elems(LegacyAll(canonical)) {
      LegacyMemberOf(outcomes, m);
      LegacyMemberOf(canonical, m);
    }
    assert Elems(LegacyAll(outcomes)) == Elems(LegacyAll(canonical));
  }

  lemma LegacyMemberOf(outcomes: seq<Outcome>, m: LegacyMember)
    ensures m in LegacyAll(outcomes) <==> exists o :: o in outcomes && Legacy(o) == m
  {
    if m in LegacyAll(outcomes) {
      var i :| 0 <= i < |outcomes| && LegacyAll(outcomes)[i] == m;
      assert outcomes[i] in outcomes && Legacy(outcomes[i]) == m;
    }
    if o :| o in outcomes && Legacy(o) == m {
      var i :| 0 <= i < |outcomes| && outcomes[i] == o;
      assert LegacyAll(outcomes)[i] == m;
    }
  }

  /** Two responses have the same v1 identity exactly when their legacy tuples are the same up to order. */
  lemma LegacyIdentityIffPermutation(a: seq<RawOutcome>, b: seq<RawOutcome>)
    requires ValidResponse(a) && ValidResponse(b)
    ensures ManifestV1(a) == ManifestV1(b)
            <==> multiset(LegacyAll(NormalizeAll(a))) == multiset(LegacyAll(NormalizeAll(b)))
  {
    var x, y := LegacyAll(NormalizeAll(a)), LegacyAll(NormalizeAll(b));
    LegacyIsListed(a);
    LegacyIsListed(b);
    SameLegacyMembersIffPermutation(x, y);
    LegacyIsTotal(Elems(x));
    if Elems(x) == Elems(y) { ListingUnique(LegacyBefore, Elems(x), ManifestV1(a), ManifestV1(b)); }
    if ManifestV1(a) == ManifestV1(b) {
      assert forall m :: m in Elems(x) <==> m in ManifestV1(a);
      assert forall m :: m in Elems(y) <==> m in ManifestV1(b);
    }
  }

  /** What the v1 tuples leave out of a member: six fields, and whether the status was there. */
  datatype Rest = Rest(
    groupId: Option<string>,
    hasStatus: bool,
    marketType: string,
    period: string,
    side: Option<string>,
    line: Option<real>,
    outcomeKey: string,
    supported: bool)

  function RestOf(o: Outcome): Rest {
    Rest(o.groupId, o.status.Some?, o.marketType, o.period, o.side, o.line, o.outcomeKey, o.supported)
  }

  /** Members of the same odds id agree on what v1 leaves out. */
  ghost predicate RestAgrees(a: seq<Outcome>, b: seq<Outcome>) {
    forall x, y | x in a && y in b && x.oddsId == y.oddsId :: RestOf(x) == RestOf(y)
  }

  /** The v2 identity is the v1 identity together with what v1 leaves out, and nothing more. */
  lemma V2IsV1AndTheRest(a: seq<RawOutcome>, b: seq<RawOutcome>)
    requires ValidResponse(a) && ValidResponse(b)
    ensures ManifestV2(a) == ManifestV2(b) <==>
              ManifestV1(a) == ManifestV1(b) && RestAgrees(NormalizeAll(a), NormalizeAll(b))
  {
    var x, y := Canonical(a), Canonical(b);
    CanonicalIsListed(a);
    CanonicalIsListed(b);
    assert forall o :: o in NormalizeAll(a) <==> o in x by {
      assert forall o :: o in NormalizeAll(a) <==> o in Elems(NormalizeAll(a));
    }
    assert forall o :: o in NormalizeAll(b) <==> o in y by {
      assert forall o :: o in NormalizeAll(b) <==> o in Elems(NormalizeAll(b));
    }
    LegacyKeepsTheOrder(a);
    LegacyKeepsTheOrder(b);
    if x == y {
      SameIdSameMember(x);
    }
    if LegacyAll(x) == LegacyAll(y) && RestAgrees(x, y) { MembersAgree(x, y); }
  }

  lemma SameIdSameMember(x: seq<Outcome>)
    requires DistinctIds(x)
    ensures forall o, p | o in x && p in x && o.oddsId == p.oddsId :: o == p
  {
    forall o, p | o in x && p in x && o.oddsId == p.oddsId ensures o == p {
      var i :| 0 <= i < |x| && x[i] == o;
      var j :| 0 <= j < |x| && x[j] == p;
      assert i < j || j < i || i == j;
    }
  }

  lemma MembersAgree(x: seq<Outcome>, y: seq<Outcome>)
    requires LegacyAll(x) == LegacyAll(y) && RestAgrees(x, y)
    ensures x == y
  {
    assert |x| == |LegacyAll(x)| && |y| == |LegacyAll(y)|;
    forall i | 0 <= i < |x| ensures x[i] == y[i] {
      assert LegacyAll(x)[i] == LegacyAll(y)[i];
      assert x[i] in x && y[i] in y;
    }
  }

  /** One v2 identity has one v1 identity. */
  lemma SameV2GivesSameV1(a: seq<RawOutcome>, b: seq<RawOutcome>)
    requires ValidResponse(a) && ValidResponse(b) && ManifestV2(a) == ManifestV2(b)
    ensures ManifestV1(a) == ManifestV1(b)
  {
    V2IsV1AndTheRest(a, b);
  }

  /** The v1 identity is coarser: a missing status and the text it is written as cannot be told apart. */
  lemma SameV1MayDifferInV2()
    ensures exists a: seq<RawOutcome>, b: seq<RawOutcome> ::
              ValidResponse(a) && ValidResponse(b) && ManifestV1(a) == ManifestV1(b) && ManifestV2(a) != ManifestV2(b)
  {
    var raw: RawOutcome := [Text("1"), Null, Whole(2), Null, Text("winner"), Text("map_1"), Null, Null, Text("k"),
                            Whole(1), Null];
    var other := raw[3 := Text("None")];
    var a, b := [raw], [other];
    OneMember(raw);
    OneMember(other);
    assert Canonical(a) == [Normalize(raw)] && Canonical(b) == [Normalize(other)];
    assert Normalize(raw).status == None && Normalize(other).status == Some("None");
    LegacyKeepsTheOrder(a);
    LegacyKeepsTheOrder(b);
    assert ManifestV1(a) == [Legacy(Normalize(raw))] && ManifestV1(b) == [Legacy(Normalize(other))];
  }

  lemma OneMember(raw: RawOutcome)
    requires ValidRaw(raw)
    ensures ValidResponse([raw]) && Canonical([raw]) == [Normalize(raw)]
  {
    var outcomes := NormalizeAll([raw]);
    assert outcomes == [Normalize(raw)];
    assert outcomes[..0] == [];
    assert Sort(OddsIdBefore, outcomes[..0]) == [];
  }

  /* ---------- idempotence ---------- */

  function TextField(o: Option<string>): Field {
    if o.Some? then Text(o.value) else Null
  }

  /** A canonical member read as a raw outcome again. */
  function AsRaw(o: Outcome): RawOutcome {
    [Text(o.oddsId), TextField(o.groupId), Decimal(o.price), TextField(o.status), Text(o.marketType), Text(o.period),
     TextField(o.side), if o.line.Some? then Decimal(o.line.value) else Null, Text(o.outcomeKey),
     Whole(if o.supported then 1 else 0), TextField(o.lastUpdate)]
  }

  function AsRawAll(outcomes: seq<Outcome>): seq<RawOutcome> {
    seq(|outcomes|, i requires 0 <= i < |outcomes| => AsRaw(outcomes[i]))
  }

  lemma NormalizedMembersAreStable(raw: RawOutcome)
    requires ValidRaw(raw)
    ensures ValidRaw(AsRaw(Normalize(raw))) && Normalize(AsRaw(Normalize(raw))) == Normalize(raw)
  {
  }

  /** Canonicalizing a canonical list changes nothing. */
  lemma CanonicalIsIdempotent(raws: seq<RawOutcome>)
    requires ValidResponse(raws)
    ensures ValidResponse(AsRawAll(Canonical(raws)))
    ensures Canonical(AsRawAll(Canonical(raws))) == Canonical(raws)
  {
    CanonicalIsListed(raws);
    var sorted := Canonical(raws);
    var again := AsRawAll(sorted);
    forall i | 0 <= i < |sorted| ensures ValidRaw(again[i]) && Normalize(again[i]) == sorted[i] {
      assert sorted[i] in Elems(NormalizeAll(raws));
      var k :| 0 <= k < |raws| && NormalizeAll(raws)[k] == sorted[i];
      NormalizedMembersAreStable(raws[k]);
    }
    assert NormalizeAll(again) == sorted;
    IdsOrderOutcomes(sorted);
    IdsOrderOutcomes(NormalizeAll(raws));
    CanonicalIsListed(again);
    assert forall o :: o in Elems(sorted) <==> o in Elems(NormalizeAll(raws));
    assert Elems(sorted) == Elems(NormalizeAll(raws));
    ListingUnique(OddsIdBefore, Elems(sorted), Canonical(again), sorted);
  }
}
