/** What the identities of a response say about its raw fields, field by field. */
module IdentityMeaning {
  import opened Wrappers
  import opened Ordering
  import opened OddsIdentity

  /** The field is this number, whole or decimal. */
  predicate IsNumber(f: Field, x: real) {
    f == Decimal(x) || (f.Whole? && f.n as real == x)
  }

  predicate SomeNumberIn(f: Field) {
    f.Whole? || f.Decimal?
  }

  /** The field holds this text, or is null for none. */
  predicate IsText(f: Field, text: Option<string>) {
    f == if text.Some? then Text(text.value) else Null
  }

  predicate NonEmptyText(f: Field) {
    f.Text? && f.text != ""
  }

  /** A valid outcome: what each of its eleven fields may be. */
  predicate WellFormed(raw: RawOutcome) {
    && |raw| == 11 && NonEmptyText(raw[0]) && SomeNumberIn(raw[2]) && (raw[7] == Null || SomeNumberIn(raw[7]))
    && (IsNumber(raw[9], 0.0) || IsNumber(raw[9], 1.0)) && NonEmptyText(raw[4]) && NonEmptyText(raw[5])
    && raw[8].Text? && (IsNumber(raw[9], 1.0) ==> raw[8].text != "")
    && forall k | k in {1, 3, 6, 10} :: raw[k] == Null || raw[k].Text?
  }

  lemma ValidIsWellFormed(raw: RawOutcome)
    ensures ValidRaw(raw) <==> WellFormed(raw)
  {
    if |raw| == 11 {
      assert (forall k | k in {1, 3, 6, 10} :: raw[k] == Null || raw[k].Text?) <==>
             TextOrNull(raw[1]) && TextOrNull(raw[3]) && TextOrNull(raw[6]) && TextOrNull(raw[10]);
    }
  }

  /** Each fault has its own fields, and the first in this order is reported. */
  lemma FaultsAreInOrder(raw: RawOutcome)
    requires |raw| == 11
    ensures !SomeNumberIn(raw[2]) ==> FieldFault(raw) == Some(BadPrice)
    ensures SomeNumberIn(raw[2]) && raw[7] != Null && !SomeNumberIn(raw[7]) ==> FieldFault(raw) == Some(BadLine)
    ensures FieldFault(raw) == Some(BadSupported) <==>
              SomeNumberIn(raw[2]) && (raw[7] == Null || SomeNumberIn(raw[7]))
              && !IsNumber(raw[9], 0.0) && !IsNumber(raw[9], 1.0)
    ensures FieldFault(raw) == Some(BadText) <==>
              SomeNumberIn(raw[2]) && (raw[7] == Null || SomeNumberIn(raw[7]))
              && (IsNumber(raw[9], 0.0) || IsNumber(raw[9], 1.0)) && !WellFormed(raw[0 := Text("id")])
  {
    var named := raw[0 := Text("id")];
    ValidIsWellFormed(named);
    assert FieldFault(named) == FieldFault(raw);
  }

  /* ---------- members ---------- */

  /** The member keeps all fields of the outcome: its texts, its numbers by value, and null for null. */
  predicate KeepsFields(raw: RawOutcome, o: Outcome)
    requires |raw| == 11
  {
    && raw[0] == Text(o.oddsId) && IsText(raw[1], o.groupId) && IsNumber(raw[2], o.price) && IsText(raw[3], o.status)
    && raw[4] == Text(o.marketType) && raw[5] == Text(o.period) && IsText(raw[6], o.side)
    && (if o.line.Some? then IsNumber(raw[7], o.line.value) else raw[7] == Null)
    && raw[8] == Text(o.outcomeKey) && IsNumber(raw[9], if o.supported then 1.0 else 0.0)
    && IsText(raw[10], o.lastUpdate)
  }

  lemma NormalizedKeepsFields(raw: RawOutcome)
    requires ValidRaw(raw)
    ensures KeepsFields(raw, Normalize(raw))
  {
  }

  lemma KeptFieldsDetermine(raw: RawOutcome, o: Outcome)
    requires ValidRaw(raw) && KeepsFields(raw, o)
    ensures o == Normalize(raw)
  {
  }

  /** Some member keeps all fields of the outcome. */
  ghost predicate HasMember(members: seq<Outcome>, raw: RawOutcome)
    requires |raw| == 11
  {
    exists o :: o in members && KeepsFields(raw, o)
  }

  /** The member keeps all fields of some outcome. */
  ghost predicate IsOfAnOutcome(raws: seq<RawOutcome>, o: Outcome)
    requires AllValid(raws)
  {
    exists i :: 0 <= i < |raws| && KeepsFields(raws[i], o)
  }

  lemma OutcomeHasMember(raws: seq<RawOutcome>, i: nat)
    requires ValidResponse(raws) && i < |raws|
    ensures HasMember(Canonical(raws), raws[i])
  {
    CanonicalIsListed(raws);
    NormalizedKeepsFields(raws[i]);
    assert NormalizeAll(raws)[i] in Elems(NormalizeAll(raws));
  }

  lemma MemberIsOfAnOutcome(raws: seq<RawOutcome>, o: Outcome)
    requires ValidResponse(raws) && o in Canonical(raws)
    ensures IsOfAnOutcome(raws, o)
  {
    CanonicalIsListed(raws);
    assert o in Elems(NormalizeAll(raws));
    var i :| 0 <= i < |raws| && NormalizeAll(raws)[i] == o;
    NormalizedKeepsFields(raws[i]);
  }

  /** Every outcome has a canonical member that keeps all its fields, and every member is of an outcome. */
  lemma MembersKeepTheirFields(raws: seq<RawOutcome>)
    requires ValidResponse(raws)
    ensures forall i | 0 <= i < |raws| :: HasMember(Canonical(raws), raws[i])
    ensures forall o | o in Canonical(raws) :: IsOfAnOutcome(raws, o)
  {
    forall i | 0 <= i < |raws| ensures HasMember(Canonical(raws), raws[i]) { OutcomeHasMember(raws, i); }
    forall o | o in Canonical(raws) ensures IsOfAnOutcome(raws, o) { MemberIsOfAnOutcome(raws, o); }
  }

  /* ---------- identities ---------- */

  /** The same field, where a whole and a decimal number of one value count as the same. */
  predicate SameField(x: Field, y: Field) {
    match (x, y)
    case (Whole(n), Decimal(r)) => n as real == r
    case (Decimal(r), Whole(n)) => n as real == r
    case _ => x == y
  }

  predicate SameFields(x: RawOutcome, y: RawOutcome)
    requires |x| == 11 && |y| == 11
  {
    forall k | 0 <= k < 11 :: SameField(x[k], y[k])
  }

  lemma SameFieldsKeepTheSame(x: RawOutcome, y: RawOutcome, o: Outcome)
    requires |x| == 11 && |y| == 11 && SameFields(x, y) && KeepsFields(x, o)
    ensures KeepsFields(y, o)
  {
  }

  lemma SameKeptSameFields(x: RawOutcome, y: RawOutcome, o: Outcome)
    requires |x| == 11 && |y| == 11 && KeepsFields(x, o) && KeepsFields(y, o)
    ensures SameFields(x, y)
  {
  }

  lemma SameMemberIffSameFields(x: RawOutcome, y: RawOutcome)
    requires ValidRaw(x) && ValidRaw(y)
    ensures Normalize(x) == Normalize(y) <==> SameFields(x, y)
  {
    NormalizedKeepsFields(x);
    NormalizedKeepsFields(y);
    if SameFields(x, y) {
      SameFieldsKeepTheSame(x, y, Normalize(x));
      KeptFieldsDetermine(y, Normalize(x));
    }
    if Normalize(x) == Normalize(y) { SameKeptSameFields(x, y, Normalize(x)); }
  }

  /** The outcome is, field by field, one of these. */
  ghost predicate IsAmong(x: RawOutcome, b: seq<RawOutcome>)
    requires ValidRaw(x) && AllValid(b)
  {
    exists j :: 0 <= j < |b| && SameFields(x, b[j])
  }

  ghost predicate FoundIn(a: seq<RawOutcome>, b: seq<RawOutcome>)
    requires AllValid(a) && AllValid(b)
  {
    forall i | 0 <= i < |a| :: IsAmong(a[i], b)
  }

  lemma AmongIffMember(x: RawOutcome, b: seq<RawOutcome>)
    requires ValidRaw(x) && AllValid(b)
    ensures IsAmong(x, b) <==> Normalize(x) in Elems(NormalizeAll(b))
  {
    if IsAmong(x, b) {
      var j :| 0 <= j < |b| && SameFields(x, b[j]);
      SameMemberIffSameFields(x, b[j]);
      assert NormalizeAll(b)[j] == Normalize(x);
    }
    if Normalize(x) in Elems(NormalizeAll(b)) {
      var j :| 0 <= j < |b| && NormalizeAll(b)[j] == Normalize(x);
      SameMemberIffSameFields(x, b[j]);
    }
  }

  lemma FoundIffMembers(a: seq<RawOutcome>, b: seq<RawOutcome>)
    requires AllValid(a) && AllValid(b)
    ensures FoundIn(a, b) <==> Elems(NormalizeAll(a)) <= Elems(NormalizeAll(b))
  {
    forall i | 0 <= i < |a| ensures IsAmong(a[i], b) <==> NormalizeAll(a)[i] in Elems(NormalizeAll(b)) {
      AmongIffMember(a[i], b);
    }
    assert forall i | 0 <= i < |a| :: NormalizeAll(a)[i] in Elems(NormalizeAll(a));
  }

  /** Two responses share their v2 identity exactly when each has, field by field, the outcomes of the other. */
  lemma SameIdentityIffSameFields(a: seq<RawOutcome>, b: seq<RawOutcome>)
    requires ValidResponse(a) && ValidResponse(b)
    ensures ManifestV2(a) == ManifestV2(b) <==> FoundIn(a, b) && FoundIn(b, a)
  {
    IdentityIffPermutation(a, b);
    SameMembersIffPermutation(NormalizeAll(a), NormalizeAll(b));
    FoundIffMembers(a, b);
    FoundIffMembers(b, a);
  }

  /** So single outcomes are told apart by each of their eleven fields. */
  lemma SingleOutcomesAreToldApart(x: RawOutcome, y: RawOutcome)
    requires ValidRaw(x) && ValidRaw(y)
    ensures ValidResponse([x]) && ValidResponse([y])
    ensures ManifestV2([x]) == ManifestV2([y]) <==> SameFields(x, y)
  {
    OneMember(x);
    OneMember(y);
    SameMemberIffSameFields(x, y);
  }

  /** What the v1 identity looks at: id, price, status and update, and a null status is read as text. */
  predicate SameLegacyFields(x: RawOutcome, y: RawOutcome)
    requires |x| == 11 && |y| == 11
  {
    && SameField(x[0], y[0]) && SameField(x[2], y[2]) && SameField(x[10], y[10])
    && (SameField(x[3], y[3]) || {x[3], y[3]} == {Null, Text("None")})
  }

  lemma LegacyOfKeptFields(x: RawOutcome, y: RawOutcome, p: Outcome, q: Outcome)
    requires |x| == 11 && |y| == 11 && KeepsFields(x, p) && KeepsFields(y, q)
    ensures Legacy(p) == Legacy(q) <==> SameLegacyFields(x, y)
  {
    assert p.price == q.price <==> SameField(x[2], y[2]);
    assert p.lastUpdate == q.lastUpdate <==> SameField(x[10], y[10]);
  }

  /** Single outcomes share their v1 identity exactly when they agree on these fields. */
  lemma LegacyTellsFourFieldsApart(x: RawOutcome, y: RawOutcome)
    requires ValidRaw(x) && ValidRaw(y)
    ensures ValidResponse([x]) && ValidResponse([y])
    ensures ManifestV1([x]) == ManifestV1([y]) <==> SameLegacyFields(x, y)
  {
    SingleManifestV1(x);
    SingleManifestV1(y);
    NormalizedKeepsFields(x);
    NormalizedKeepsFields(y);
    LegacyOfKeptFields(x, y, Normalize(x), Normalize(y));
  }

  lemma SingleManifestV1(x: RawOutcome)
    requires ValidRaw(x)
    ensures ValidResponse([x]) && ManifestV1([x]) == [Legacy(Normalize(x))]
  {
    OneMember(x);
    LegacyKeepsTheOrder([x]);
    assert LegacyAll([Normalize(x)]) == [Legacy(Normalize(x))];
  }
}
