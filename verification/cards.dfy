/**
 * The deck document: an ordered list of card records, each holding a
 * `learned` flag and an optional list of definitions, each of which may
 * carry an `imagePath`. Only the members the services read or write are
 * modelled; the rest of each JSON object is carried along untouched.
 */
module Cards {
  import opened Wrappers
  import opened Text

  /** The members of a JSON object that no operation looks at. */
  type Fields = map<string, string>

  /** The value under an `imagePath` key: the key is missing, it holds JSON
      null, or it holds a reference (a URL or a path). */
  datatype Slot = Absent | Null | Path(url: string)

  datatype Definition = Definition(imagePath: Slot, rest: Fields)

  /** A card. `learned` is None while the key is missing; `definitions` is
      None when the key is missing or its value is not a list. The top-level
      `imagePath` belongs to the older deck format. */
  datatype Card = Card(
    learned: Option<bool>,
    definitions: Option<seq<Definition>>,
    imagePath: Slot,
    rest: Fields)

  type Deck = seq<Card>

  /** A deck's name with every `.json` removed: the folder and file-name
      prefix of the deck's media. */
  function DeckBase(deckName: string): (b: string)
    ensures |b| <= |deckName|
    ensures b == deckName <==> !Occurs(deckName, ".json")
  {
    RemoveAllUnchangedIff(deckName, ".json");
    RemoveAll(deckName, ".json")
  }

  /** Appending `.json` to a name does not change its base: `.json` has no
      proper prefix that is also a suffix, so the appended copy is removed
      whole and no other occurrence is created. */
  lemma {:induction false} DeckBaseAppend(s: string)
    ensures DeckBase(s + ".json") == DeckBase(s)
    decreases |s|
  {
    var pat := ".json";
    var t := s + pat;
    if s == [] {
      assert t[..|pat|] == pat && t[|pat|..] == [];
    } else if |s| >= |pat| && s[..|pat|] == pat {
      assert t[..|pat|] == pat && t[|pat|..] == s[|pat|..] + pat;
      DeckBaseAppend(s[|pat|..]);
    } else if |s| >= |pat| {
      assert t[..|pat|] == s[..|pat|] && t[1..] == s[1..] + pat;
      DeckBaseAppend(s[1..]);
    } else {
      DeckBaseAppendShort(s);
    }
  }

  /** The step of `DeckBaseAppend` for a name shorter than `.json`: the
      name cannot start an occurrence, since `.json` has a dot only in
      front. */
  lemma DeckBaseAppendShort(s: string)
    requires 0 < |s| < 5
    ensures DeckBase(s + ".json") == s
  {
    var pat := ".json";
    var t := s + pat;
    assert t[|s|] == '.' && pat[|s|] != '.';
    assert t[..|pat|] != pat by {
      assert t[..|pat|][|s|] == t[|s|];
    }
    assert RemoveAll(t, pat) == [t[0]] + RemoveAll(t[1..], pat);
    assert t[1..] == s[1..] + pat;
    if |s| > 1 {
      DeckBaseAppendShort(s[1..]);
    } else {
      assert t[1..] == pat;
      assert RemoveAll(pat, pat) == RemoveAll([], pat) by {
        assert pat[..|pat|] == pat && pat[|pat|..] == [];
      }
    }
    assert s == [s[0]] + s[1..];
  }

  /** `after` is `before` with `learned` of card `i` set to `b`, and nothing
      else changed: no other card, and no other member of card `i`. */
  predicate LearnedSetAt(before: Deck, after: Deck, i: int, b: bool) {
    && |after| == |before|
    && 0 <= i < |before|
    && after[i].learned == Some(b)
    && after[i].definitions == before[i].definitions
    && after[i].imagePath == before[i].imagePath
    && after[i].rest == before[i].rest
    && (forall k :: 0 <= k < |before| && k != i ==> after[k] == before[k])
  }

  /** `after` is `before` with the `imagePath` of definition `j` of card `i`
      set to `slot`, and nothing else changed. */
  predicate ImagePathSetAt(before: Deck, after: Deck, i: int, j: int, slot: Slot) {
    && |after| == |before|
    && 0 <= i < |before|
    && before[i].definitions.Some?
    && 0 <= j < |before[i].definitions.value|
    && after[i].learned == before[i].learned
    && after[i].imagePath == before[i].imagePath
    && after[i].rest == before[i].rest
    && after[i].definitions.Some?
    && var defs, defs' := before[i].definitions.value, after[i].definitions.value;
    && |defs'| == |defs|
    && defs'[j].imagePath == slot
    && defs'[j].rest == defs[j].rest
    && (forall m :: 0 <= m < |defs| && m != j ==> defs'[m] == defs[m])
    && (forall k :: 0 <= k < |before| && k != i ==> after[k] == before[k])
  }

  /** A definition after a reset: a non-null `imagePath` becomes null; a
      missing or null one stays as it was. */
  predicate DefinitionReset(before: Definition, after: Definition) {
    && after.rest == before.rest
    && after.imagePath == (if before.imagePath.Path? then Null else before.imagePath)
  }

  predicate DefinitionsReset(before: seq<Definition>, after: seq<Definition>) {
    && |after| == |before|
    && (forall m :: 0 <= m < |before| ==> DefinitionReset(before[m], after[m]))
  }

  /** A card after a reset of the current deck format: not learned, every
      definition reset, every other member as it was. */
  predicate CardReset(before: Card, after: Card) {
    && after.learned == Some(false)
    && after.imagePath == before.imagePath
    && after.rest == before.rest
    && after.definitions.Some? == before.definitions.Some?
    && (before.definitions.Some? ==>
          DefinitionsReset(before.definitions.value, after.definitions.value))
  }

  /** A whole deck after a reset: same number of cards, same order, each
      card reset. */
  predicate DeckReset(before: Deck, after: Deck) {
    && |after| == |before|
    && (forall k :: 0 <= k < |before| ==> CardReset(before[k], after[k]))
  }

  /** No definition anywhere in the deck still references an image. */
  predicate NoImageReferences(deck: Deck) {
    forall k, m ::
      0 <= k < |deck| && deck[k].definitions.Some? && 0 <= m < |deck[k].definitions.value|
      ==> !deck[k].definitions.value[m].imagePath.Path?
  }

  /** Every card of a reset deck is unlearned and no definition references an
      image any more. */
  lemma ResetClearsDeck(before: Deck, after: Deck)
    requires DeckReset(before, after)
    ensures forall k :: 0 <= k < |after| ==> after[k].learned == Some(false)
    ensures NoImageReferences(after)
  {
    forall k, m |
      0 <= k < |after| && after[k].definitions.Some? && 0 <= m < |after[k].definitions.value|
      ensures !after[k].definitions.value[m].imagePath.Path?
    {
      assert CardReset(before[k], after[k]);
      assert DefinitionReset(before[k].definitions.value[m], after[k].definitions.value[m]);
    }
  }

  /** Resetting is determined by its input, and resetting a reset deck
      changes nothing: a second reset finds nothing left to clear. */
  lemma {:induction false} ResetIsIdempotent(d0: Deck, d1: Deck, d2: Deck)
    requires DeckReset(d0, d1) && DeckReset(d1, d2)
    ensures d2 == d1
  {
    forall k | 0 <= k < |d1| ensures d2[k] == d1[k] {
      var c0, c1, c2 := d0[k], d1[k], d2[k];
      assert CardReset(c0, c1) && CardReset(c1, c2);
      if c1.definitions.Some? {
        var e1, e2 := c1.definitions.value, c2.definitions.value;
        forall m | 0 <= m < |e1| ensures e2[m] == e1[m] {
          assert DefinitionReset(c0.definitions.value[m], e1[m]);
          assert DefinitionReset(e1[m], e2[m]);
        }
        assert e2 == e1;
      }
    }
  }

  /** A card after a reset of the older deck format: not learned, and a
      top-level `imagePath` that is present becomes null. */
  predicate LegacyCardReset(before: Card, after: Card) {
    && after.learned == Some(false)
    && after.imagePath == (if before.imagePath.Absent? then Absent else Null)
    && after.definitions == before.definitions
    && after.rest == before.rest
  }

  predicate LegacyDeckReset(before: Deck, after: Deck) {
    && |after| == |before|
    && (forall k :: 0 <= k < |before| ==> LegacyCardReset(before[k], after[k]))
  }
}
