/** What the relocations of frames and of raw artifacts share: who moved what, and the requested replacements. */
module Relocations {
  import opened TextOrder

  datatype Note = Note(reason: string, actor: string, at: int)

  predicate GoodNote(note: Note) {
    0 < |note.reason| <= 256 && 0 < |note.actor| <= 256
  }

  /** A replacement: the registered key, its new path, and the path the file is read from. */
  datatype Replacement = Replacement(key: string, destination: string, incoming: string)

  /** The items of a mapping, sorted by key. */
  predicate SortedMapping(items: seq<Replacement>) {
    forall i, j | 0 <= i < j < |items| :: TextBefore(items[i].key, items[j].key)
  }

  lemma NewestItem(items: seq<Replacement>)
    requires SortedMapping(items) && items != []
    ensures SortedMapping(items[..|items| - 1])
    ensures forall i | 0 <= i < |items| - 1 :: items[i].key != items[|items| - 1].key
  {
    TextIrreflexive(items[|items| - 1].key);
  }

  /** A mapping has one replacement for a key. */
  lemma {:induction false} KeysAreDistinct(items: seq<Replacement>, x: Replacement, y: Replacement)
    requires SortedMapping(items) && x in items && y in items && x.key == y.key
    ensures x == y
  {
    NewestItem(items);
    var init, last := items[..|items| - 1], items[|items| - 1];
    assert items == init + [last];
    if x in init && y in init {
      KeysAreDistinct(init, x, y);
    } else {
      forall z | z in init ensures z.key != last.key {
        var i :| 0 <= i < |init| && init[i] == z;
        assert items[i] == z;
      }
    }
  }
}
