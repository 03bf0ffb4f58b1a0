/** The lexicographic order of text by code points, as Python compares strings. */
module TextOrder {
  import opened Ordering

  predicate TextBefore(a: string, b: string) {
    b != "" && (a == "" || a[0] < b[0] || (a[0] == b[0] && TextBefore(a[1..], b[1..])))
  }

  lemma {:induction false} TextIrreflexive(a: string)
    ensures !TextBefore(a, a)
  {
    if a != "" { TextIrreflexive(a[1..]); }
  }

  lemma {:induction false} TextTotal(a: string, b: string)
    requires a != b
    ensures TextBefore(a, b) || TextBefore(b, a)
  {
    if a != "" && b != "" && a[0] == b[0] {
      assert a == [a[0]] + a[1..] && b == [b[0]] + b[1..];
      TextTotal(a[1..], b[1..]);
    }
  }

  lemma {:induction false} TextTransitive(a: string, b: string, c: string)
    requires TextBefore(a, b) && TextBefore(b, c)
    ensures TextBefore(a, c)
  {
    if a != "" && a[0] == b[0] && b[0] == c[0] { TextTransitive(a[1..], b[1..], c[1..]); }
  }

  lemma TextOrderIsStrictTotal(elems: set<string>)
    ensures StrictTotalOn(TextBefore, elems)
  {
    forall a | a in elems ensures !TextBefore(a, a) { TextIrreflexive(a); }
    forall a, b | a in elems && b in elems && a != b ensures TextBefore(a, b) || TextBefore(b, a) { TextTotal(a, b); }
    forall a, b, c | a in elems && b in elems && c in elems && TextBefore(a, b) && TextBefore(b, c)
      ensures TextBefore(a, c)
    {
      TextTransitive(a, b, c);
    }
  }
}
