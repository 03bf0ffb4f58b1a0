/**
 * Binding of `?` parameters: a scanner that skips quoted text, with a lookahead for doubled
 * quotes, agrees with an automaton that just turns quoting on and off.
 */
module Binder {
  import opened Wrappers

  /** One element of the scanner's output: copied text, or a named parameter. */
  datatype Piece = Text(c: char) | Placeholder(index: nat)

  datatype BindError = NotEnoughParameters | TooManyParameters

  datatype Bound<V> = Bound(pieces: seq<Piece>, values: map<nat, V>)

  predicate IsQuote(c: char) {
    c == '\'' || c == '"'
  }

  /* ---------- the automaton ---------- */

  /** The quote that is open before position `n`: every quote character toggles its own kind. */
  function QuoteBefore(s: string, n: nat): (quote: Option<char>)
    requires n <= |s|
    ensures quote.Some? ==> IsQuote(quote.value)
  {
    if n == 0 then None
    else
      var quote := QuoteBefore(s, n - 1);
      var c := s[n - 1];
      if quote.None? then if IsQuote(c) then Some(c) else None
      else if c == quote.value then None
      else quote
  }

  predicate IsParameter(s: string, i: nat)
    requires i < |s|
  {
    s[i] == '?' && QuoteBefore(s, i).None?
  }

  function ParametersBefore(s: string, n: nat): nat
    requires n <= |s|
  {
    if n == 0 then 0 else ParametersBefore(s, n - 1) + if IsParameter(s, n - 1) then 1 else 0
  }

  /** Replace exactly the `?` outside quotes, numbered in order, and copy everything else. */
  function Replaced(s: string, n: nat): seq<Piece>
    requires n <= |s|
  {
    if n == 0 then []
    else Replaced(s, n - 1)
         + [if IsParameter(s, n - 1) then Placeholder(ParametersBefore(s, n - 1)) else Text(s[n - 1])]
  }

  function Verbatim(s: string): seq<Piece> {
    seq(|s|, i requires 0 <= i < |s| => Text(s[i]))
  }

  function Numbered<V>(values: seq<V>): map<nat, V> {
    map i: nat | i < |values| :: values[i]
  }

  /** The outcome of binding, told by the automaton. */
  ghost predicate Binds<V>(s: string, values: seq<V>, r: Result<Bound<V>, BindError>) {
    if values == [] then r == Ok(Bound(Verbatim(s), map[]))
    else if ParametersBefore(s, |s|) > |values| then r == Err(NotEnoughParameters)
    else if ParametersBefore(s, |s|) < |values| then r == Err(TooManyParameters)
    else r == Ok(Bound(Replaced(s, |s|), Numbered(values)))
  }

  /* ---------- the scanner ---------- */

  method BindParameters<V>(statement: string, values: seq<V>) returns (r: Result<Bound<V>, BindError>)
    ensures Binds(statement, values, r)
  {
    if values == [] { return Ok(Bound(Verbatim(statement), map[])); }
    var output: seq<Piece> := [];
    var bound: map<nat, V> := map[];
    var valueIndex := 0;
    var quote: Option<char> := None;
    var index := 0;
    while index < |statement|
      invariant 0 <= index <= |statement| && valueIndex <= |values|
      invariant output == Replaced(statement, index) && quote == QuoteBefore(statement, index)
      invariant valueIndex == ParametersBefore(statement, index)
      invariant bound == Numbered(values[..valueIndex])
    {
      var character := statement[index];
      if quote.Some? {
        output := output + [Text(character)];
        if character == quote.value {
          if index + 1 < |statement| && statement[index + 1] == quote.value {
            assert QuoteBefore(statement, index + 1) == None;
            output := output + [Text(statement[index + 1])];
            index := index + 1;
          } else {
            quote := None;
          }
        }
      } else if IsQuote(character) {
        quote := Some(character);
        output := output + [Text(character)];
      } else if character == '?' {
        if valueIndex >= |values| {
          MoreParametersAhead(statement, index + 1, |statement|);
          return Err(NotEnoughParameters);
        }
        output := output + [Placeholder(valueIndex)];
        bound := bound[valueIndex := values[valueIndex]];
        valueIndex := valueIndex + 1;
      } else {
        output := output + [Text(character)];
      }
      index := index + 1;
    }
    if valueIndex != |values| { return Err(TooManyParameters); }
    assert values[..valueIndex] == values;
    r := Ok(Bound(output, bound));
  }

  lemma {:induction false} MoreParametersAhead(s: string, i: nat, n: nat)
    requires i <= n <= |s|
    ensures ParametersBefore(s, i) <= ParametersBefore(s, n)
    decreases n
  {
    if i < n { MoreParametersAhead(s, i, n - 1); }
  }

  /* ---------- what is quoted ---------- */

  predicate Unquoted(text: string) {
    '\'' !in text && '"' !in text
  }

  lemma {:induction false} QuoteOfPrefix(a: string, b: string, n: nat)
    requires n <= |a|
    ensures QuoteBefore(a + b, n) == QuoteBefore(a, n)
  {
    if n > 0 { QuoteOfPrefix(a, b, n - 1); }
  }

  /** After a part that ends outside every quotation the automaton goes on as from the start. */
  lemma {:induction false} QuoteOfRest(a: string, b: string, n: nat)
    requires n <= |b| && QuoteBefore(a, |a|).None?
    ensures QuoteBefore(a + b, |a| + n) == QuoteBefore(b, n)
  {
    if n > 0 {
      QuoteOfRest(a, b, n - 1);
    } else {
      QuoteOfPrefix(a, b, |a|);
    }
  }

  lemma {:induction false} NothingQuoted(text: string, n: nat)
    requires n <= |text| && Unquoted(text)
    ensures QuoteBefore(text, n).None?
  {
    if n > 0 {
      NothingQuoted(text, n - 1);
      assert text[n - 1] in text;
    }
  }

  lemma {:induction false} StillQuoted(c: char, quoted: string, n: nat)
    requires (c == '\'' || c == '"') && c !in quoted && 1 <= n <= 1 + |quoted|
    ensures QuoteBefore([c] + quoted, n) == Some(c)
  {
    if n > 1 {
      StillQuoted(c, quoted, n - 1);
      assert ([c] + quoted)[n - 1] == quoted[n - 2] && quoted[n - 2] in quoted;
    } else {
      assert QuoteBefore([c] + quoted, 0) == None;
    }
  }

  lemma QuotationCloses(c: char, quoted: string)
    requires (c == '\'' || c == '"') && c !in quoted
    ensures QuoteBefore([c] + quoted + [c], |quoted| + 2).None?
  {
    StillQuoted(c, quoted, 1 + |quoted|);
    QuoteOfPrefix([c] + quoted, [c], 1 + |quoted|);
  }

  /**
   * Text in single or in double quotes holds no parameters, whatever else is in it; every question mark
   * before it is one, and what follows it is read as a statement of its own.
   */
  lemma QuotedTextHasNoParameters(before: string, c: char, quoted: string, rest: string, i: nat)
    requires Unquoted(before) && (c == '\'' || c == '"') && c !in quoted
    requires i < |before + ([c] + quoted + [c] + rest)|
    ensures var s, closed := before + ([c] + quoted + [c] + rest), |before| + |quoted| + 2;
            IsParameter(s, i) <==> if i < |before| then before[i] == '?'
                                   else i >= closed && IsParameter(rest, i - closed)
  {
    var inner := [c] + quoted + [c];
    var s, after := before + (inner + rest), [c] + quoted + [c] + rest;
    assert after == inner + rest;
    NothingQuoted(before, |before|);
    if i < |before| {
      QuoteOfPrefix(before, inner + rest, i);
      NothingQuoted(before, i);
    } else if i < |before| + |inner| {
      QuoteOfRest(before, inner + rest, i - |before|);
      QuoteOfPrefix(inner, rest, i - |before|);
      InsideQuotation(c, quoted, i - |before|);
    } else {
      QuoteOfRest(before, inner + rest, i - |before|);
      QuotationCloses(c, quoted);
      QuoteOfRest(inner, rest, i - |before| - |inner|);
    }
  }

  lemma InsideQuotation(c: char, quoted: string, n: nat)
    requires (c == '\'' || c == '"') && c !in quoted && n < |quoted| + 2
    ensures !IsParameter([c] + quoted + [c], n)
  {
    if 1 <= n {
      StillQuoted(c, quoted, n);
      QuoteOfPrefix([c] + quoted, [c], n);
    }
  }

  /**
   * A quotation that is never closed holds no parameters either, and in text without quotes every question
   * mark is one.
   */
  lemma OpenQuotationHasNoParameters(before: string, c: char, quoted: string, i: nat)
    requires Unquoted(before) && (c == '\'' || c == '"') && c !in quoted && i < |before + ([c] + quoted)|
    ensures IsParameter(before + ([c] + quoted), i) <==> i < |before| && before[i] == '?'
    ensures i < |before| ==> (IsParameter(before, i) <==> before[i] == '?')
  {
    NothingQuoted(before, |before|);
    if i < |before| {
      QuoteOfPrefix(before, [c] + quoted, i);
      NothingQuoted(before, i);
    } else {
      QuoteOfRest(before, [c] + quoted, i - |before|);
      if i > |before| { StillQuoted(c, quoted, i - |before|); }
    }
  }

  /* ---------- what the replaced statement keeps ---------- */

  /** Put the question marks back. */
  function Original(pieces: seq<Piece>): string {
    seq(|pieces|, i requires 0 <= i < |pieces| => match pieces[i] case Text(c) => c case Placeholder(_) => '?')
  }

  /** Mapping the placeholders back gives the original statement, whatever was bound. */
  lemma BindingCanBeUndone<V>(s: string, values: seq<V>, r: Result<Bound<V>, BindError>)
    requires Binds(s, values, r) && r.Ok?
    ensures Original(r.value.pieces) == s
  {
    if values != [] { ReplacedIsReversible(s, |s|); }
  }

  lemma {:induction false} ReplacedIsReversible(s: string, n: nat)
    requires n <= |s|
    ensures |Replaced(s, n)| == n && Original(Replaced(s, n)) == s[..n]
  {
    if n > 0 {
      ReplacedIsReversible(s, n - 1);
      var last := if IsParameter(s, n - 1) then Placeholder(ParametersBefore(s, n - 1)) else Text(s[n - 1]);
      assert Replaced(s, n) == Replaced(s, n - 1) + [last];
      assert Original(Replaced(s, n)) == Original(Replaced(s, n - 1)) + [s[n - 1]];
      assert s[..n] == s[..n - 1] + [s[n - 1]];
    }
  }

  lemma {:induction false} PieceAt(s: string, n: nat, i: nat)
    requires i < n <= |s|
    ensures |Replaced(s, n)| == n
    ensures Replaced(s, n)[i] == if IsParameter(s, i) then Placeholder(ParametersBefore(s, i)) else Text(s[i])
  {
    ReplacedIsReversible(s, n - 1);
    if i < n - 1 { PieceAt(s, n - 1, i); }
  }

  /** Every value is used by exactly one placeholder, which stands where its question mark stood. */
  lemma EachValueHasOnePlace<V>(s: string, values: seq<V>, r: Result<Bound<V>, BindError>, k: nat)
    requires Binds(s, values, r) && r.Ok? && k < |values|
    ensures k in r.value.values && r.value.values[k] == values[k]
    ensures exists i :: 0 <= i < |s| && IsParameter(s, i) && |r.value.pieces| == |s|
                        && r.value.pieces[i] == Placeholder(k)
                        && forall j | 0 <= j < |s| && r.value.pieces[j] == Placeholder(k) :: j == i
  {
    var i := ParameterNumber(s, |s|, k);
    PieceAt(s, |s|, i);
    forall j | 0 <= j < |s| && r.value.pieces[j] == Placeholder(k) ensures j == i {
      PieceAt(s, |s|, j);
      if j < i { MoreParametersAhead(s, j + 1, i); }
      if i < j { MoreParametersAhead(s, i + 1, j); }
    }
  }

  lemma {:induction false} ParameterNumber(s: string, n: nat, k: nat) returns (i: nat)
    requires n <= |s| && k < ParametersBefore(s, n)
    ensures i < n && IsParameter(s, i) && ParametersBefore(s, i) == k
  {
    if k == ParametersBefore(s, n - 1) { i := n - 1; } else { i := ParameterNumber(s, n - 1, k); }
  }

  /* ---------- the rendered statement ---------- */

  function Decimal(n: nat): string {
    if n < 10 then ["0123456789"[n]] else Decimal(n / 10) + ["0123456789"[n % 10]]
  }

  function Render(pieces: seq<Piece>): string {
    if pieces == [] then ""
    else (match pieces[0] case Text(c) => [c] case Placeholder(k) => ":p" + Decimal(k)) + Render(pieces[1..])
  }

  /** The number that decimal digits denote. */
  function ValueOf(digits: string): int {
    if digits == "" then 0
    else 10 * ValueOf(digits[..|digits| - 1]) + (digits[|digits| - 1] as int - '0' as int)
  }

  lemma {:induction false} DecimalDenotes(n: nat)
    ensures Decimal(n) != "" && ValueOf(Decimal(n)) == n && forall d | d in Decimal(n) :: '0' <= d <= '9'
  {
    var digit := "0123456789"[n % 10];
    assert '0' <= digit <= '9' && digit as int - '0' as int == n % 10;
    if n >= 10 {
      DecimalDenotes(n / 10);
      assert Decimal(n) == Decimal(n / 10) + [digit];
      assert Decimal(n)[..|Decimal(n)| - 1] == Decimal(n / 10);
    } else {
      assert Decimal(n) == [digit] && Decimal(n)[..0] == "";
    }
  }

  /** A placeholder is rendered as a name that its number can be read from, so different ones differ. */
  lemma NamesTellPlaceholdersApart(k: nat)
    ensures var name := Render([Placeholder(k)]);
            |name| > 2 && name[..2] == ":p" && ValueOf(name[2..]) == k && forall d | d in name[2..] :: '0' <= d <= '9'
  {
    DecimalDenotes(k);
    assert Render([Placeholder(k)]) == ":p" + Decimal(k) + Render([Placeholder(k)][1..]);
    assert Render([Placeholder(k)]) == ":p" + Decimal(k);
    assert Render([Placeholder(k)])[2..] == Decimal(k);
  }

  /** A statement bound without parameters renders to its own text. */
  lemma {:induction false} VerbatimRendersItself(s: string)
    ensures Render(Verbatim(s)) == s
  {
    if s != "" {
      assert Verbatim(s)[1..] == Verbatim(s[1..]);
      VerbatimRendersItself(s[1..]);
      assert s == [s[0]] + s[1..];
    }
  }

  /** A placeholder renders to more than one character. */
  lemma {:induction false} PlaceholdersLengthen(pieces: seq<Piece>)
    ensures |Render(pieces)| >= |pieces|
    ensures (exists i :: 0 <= i < |pieces| && pieces[i].Placeholder?) ==> |Render(pieces)| > |pieces|
  {
    if pieces != [] {
      PlaceholdersLengthen(pieces[1..]);
      if i :| 0 <= i < |pieces| && pieces[i].Placeholder? {
        if i > 0 { assert pieces[1..][i - 1].Placeholder?; }
      }
    }
  }

  /**
   * Rows bound to one statement give the same SQL text exactly when all of them, or none of them,
   * have parameters; so a batch is refused as inconsistent only when it mixes the two.
   */
  lemma BatchSqlIsConsistentIff<V>(s: string, first: seq<V>, other: seq<V>, r: Result<Bound<V>, BindError>,
                                   r': Result<Bound<V>, BindError>)
    requires Binds(s, first, r) && Binds(s, other, r') && r.Ok? && r'.Ok?
    ensures Render(r.value.pieces) == Render(r'.value.pieces) <==> (first == [] <==> other == [])
  {
    VerbatimRendersItself(s);
    if first != [] { BoundTextIsLonger(s, first, r); }
    if other != [] { BoundTextIsLonger(s, other, r'); }
  }

  lemma BoundTextIsLonger<V>(s: string, values: seq<V>, r: Result<Bound<V>, BindError>)
    requires Binds(s, values, r) && r.Ok? && values != []
    ensures |Render(r.value.pieces)| > |s|
  {
    var i := ParameterNumber(s, |s|, 0);
    PieceAt(s, |s|, i);
    PlaceholdersLengthen(r.value.pieces);
  }
}
