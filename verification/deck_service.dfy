/**
 * The deck operations of the object-store era: listing categories and
 * decks, locating a deck document, and the three read-modify-write updates
 * (one card's `learned` flag, a whole-deck reset, one definition's
 * `imagePath`). Each update loads the whole document, changes it, and
 * writes the whole document back.
 */
module DeckService {
  import opened Wrappers
  import opened Text
  import opened Cards
  import opened Store

  /** The category listed first whenever it exists. */
  const PreferredCategory: string := "phrasal_verbs"

  /** Which update raised because the upload of the document failed. */
  datatype Update = StatusUpdate | Reset | ImageUpdate

  /** The exceptions the deck operations raise. */
  datatype DeckError =
    | DeckNotFound(filename: string, category: string)
    | CategoryEmpty(category: string)
    | StatusIndexOutOfRange
    | CardIndexOutOfRange(index: int)
    | NoDefinitionsList(index: int)
    | DefinitionIndexOutOfRange(defIndex: int)
    | UploadFailed(update: Update, key: string)
  {
    /** The text of the exception, `str(e)` in the source. */
    function Message(): string {
      match this
      case DeckNotFound(f, c) =>
        "El archivo del deck '" + f + "' no existe en la categoría '" + c + "'."
      case CategoryEmpty(c) => "La categoría '" + c + "' no existe o está vacía."
      case StatusIndexOutOfRange => "Índice fuera de rango."
      case CardIndexOutOfRange(i) => "Índice de tarjeta (" + IntToString(i) + ") fuera de rango."
      case NoDefinitionsList(i) =>
        "La tarjeta en el índice " + IntToString(i) + " no tiene una lista de 'definitions'."
      case DefinitionIndexOutOfRange(j) =>
        "Índice de definición (" + IntToString(j) + ") fuera de rango."
      case UploadFailed(StatusUpdate, k) => "Error al actualizar el deck en GCS: " + k
      case UploadFailed(Reset, k) => "Error al resetear el deck en GCS: " + k
      case UploadFailed(ImageUpdate, k) => "Error al actualizar imagen en deck en GCS: " + k
    }
  }

  // ---------------------------------------------------------------------
  // Categories
  // ---------------------------------------------------------------------

  /** A category name from a listed virtual directory such as
      `json/phrasal_verbs/`: every `json/` removed, trailing slashes dropped. */
  function CategoryName(prefix: string): string {
    RStripChar(RemoveAll(prefix, JsonPrefix + "/"), '/')
  }

  function CategoryNames(prefixes: seq<string>): (names: seq<string>)
    ensures |names| == |prefixes|
    ensures forall k :: 0 <= k < |prefixes| ==> names[k] == CategoryName(prefixes[k])
  {
    seq(|prefixes|, k requires 0 <= k < |prefixes| => CategoryName(prefixes[k]))
  }

  /** The folder prefix the store lists for a category, `json/{c}/`, gives
      back the category `c`, for every name that holds no `json/` and does
      not end in a slash. */
  lemma CategoryNameOfPrefix(c: string)
    requires !Occurs(c + "/", JsonPrefix + "/")
    requires c == [] || c[|c| - 1] != '/'
    ensures CategoryName(JsonPrefix + "/" + c + "/") == c
  {
    var pat := JsonPrefix + "/";
    var s := pat + c + "/";
    assert s[..|pat|] == pat && s[|pat|..] == c + "/";
    RemoveAllUnchangedIff(c + "/", pat);
    assert RemoveAll(s, pat) == c + "/";
    assert (c + "/")[..|c|] == c;
    assert RStripChar(c + "/", '/') == RStripChar(c, '/');
    assert RStripChar(c, '/') == c;
  }

  /** Ordered as Python's `sort()` orders strings. */
  predicate Sorted(s: seq<string>) {
    forall i, j :: 0 <= i < j < |s| ==> LexLessEq(s[i], s[j])
  }

  /** One step of sorting: `x` placed before the first element it does not
      come after. */
  function Insert(x: string, s: seq<string>): seq<string> {
    if s == [] then [x]
    else if LexLessEq(x, s[0]) then [x] + s
    else [s[0]] + Insert(x, s[1..])
  }

  /** Inserting keeps the elements and adds `x`. */
  lemma {:induction false} InsertPermutes(x: string, s: seq<string>)
    ensures multiset(Insert(x, s)) == multiset(s) + multiset{x}
  {
    if s != [] && !LexLessEq(x, s[0]) {
      InsertPermutes(x, s[1..]);
      assert s == [s[0]] + s[1..];
    }
  }

  /** Inserting into a sorted list keeps it sorted. */
  lemma {:induction false} InsertSorted(x: string, s: seq<string>)
    requires Sorted(s)
    ensures Sorted(Insert(x, s))
  {
    if s == [] {
    } else if LexLessEq(x, s[0]) {
      forall j | 0 <= j < |s| ensures LexLessEq(x, s[j]) {
        if j > 0 { LexTransitive(x, s[0], s[j]); }
      }
    } else {
      var t := Insert(x, s[1..]);
      assert Sorted(s[1..]);
      InsertSorted(x, s[1..]);
      InsertPermutes(x, s[1..]);
      LexTotal(x, s[0]);
      forall j | 0 <= j < |t| ensures LexLessEq(s[0], t[j]) {
        assert t[j] in multiset(t);
        if t[j] != x {
          assert t[j] in multiset(s[1..]);
          var m :| 0 <= m < |s[1..]| && s[1..][m] == t[j];
          assert s[m + 1] == t[j];
        }
      }
      assert Insert(x, s) == [s[0]] + t;
    }
  }

  /** Dropping one element of a sorted list leaves it sorted. */
  lemma SortedWithout(s: seq<string>, k: int)
    requires Sorted(s) && 0 <= k < |s|
    ensures Sorted(s[..k] + s[k + 1..])
  {
    var t := s[..k] + s[k + 1..];
    forall i, j | 0 <= i < j < |t| ensures LexLessEq(t[i], t[j]) {
      var i' := if i < k then i else i + 1;
      var j' := if j < k then j else j + 1;
      assert t[i] == s[i'] && t[j] == s[j'];
    }
  }

  /** `list.sort()` on strings, as a specification: insertion sort. */
  function SortStrings(s: seq<string>): seq<string> {
    if s == [] then [] else Insert(s[0], SortStrings(s[1..]))
  }

  /** Sorting orders the list and keeps its elements, duplicates included. */
  lemma {:induction false} SortStringsCorrect(s: seq<string>)
    ensures Sorted(SortStrings(s))
    ensures multiset(SortStrings(s)) == multiset(s)
  {
    if s != [] {
      SortStringsCorrect(s[1..]);
      InsertSorted(s[0], SortStrings(s[1..]));
      InsertPermutes(s[0], SortStrings(s[1..]));
      assert s == [s[0]] + s[1..];
    }
  }

  /** The index of the first occurrence of `x`, the one `list.remove` drops. */
  function FirstIndex(s: seq<string>, x: string): (k: nat)
    requires x in s
    ensures k < |s| && s[k] == x && x !in s[..k]
  {
    if s[0] == x then 0
    else
      assert x in s[1..];
      var k := FirstIndex(s[1..], x);
      assert s[..k + 1] == [s[0]] + s[1..][..k];
      k + 1
  }

  /** `list_categories`: the category names of the listed prefixes, sorted,
      with `phrasal_verbs` moved to the front when it is one of them; one
      entry per listed prefix, and none for an empty listing. */
  method ListCategories(prefixes: seq<string>) returns (categories: seq<string>)
    ensures multiset(categories) == multiset(CategoryNames(prefixes))
    ensures PreferredCategory in categories ==>
              categories[0] == PreferredCategory && Sorted(categories[1..])
    ensures PreferredCategory !in categories ==> Sorted(categories)
  {
    if prefixes == [] {
      return [];
    }
    var names := CategoryNames(prefixes);
    categories := SortStrings(names);
    SortStringsCorrect(names);
    if PreferredCategory in categories {
      var k := FirstIndex(categories, PreferredCategory);
      MoveToFront(categories, k);
      // `remove` drops the first occurrence, `insert(0, ...)` puts it in front.
      categories := categories[..k] + categories[k + 1..];
      categories := [PreferredCategory] + categories;
    }
  }

  /** Taking element `k` of a sorted list out and putting it in front keeps
      the elements and leaves the rest sorted. */
  lemma MoveToFront(s: seq<string>, k: nat)
    requires Sorted(s) && k < |s|
    ensures var t := [s[k]] + (s[..k] + s[k + 1..]);
      multiset(t) == multiset(s) && t[0] == s[k] && Sorted(t[1..])
  {
    SortedWithout(s, k);
    assert s == s[..k] + [s[k]] + s[k + 1..];
    var t := [s[k]] + (s[..k] + s[k + 1..]);
    assert t[1..] == s[..k] + s[k + 1..];
  }

  // ---------------------------------------------------------------------
  // Locating decks
  // ---------------------------------------------------------------------

  /** The deck's file name: `.json` appended unless already there. */
  function DeckFileName(deckName: string): (f: string)
    ensures StartsWith(f, deckName) && EndsWith(f, ".json")
    ensures f == deckName || f == deckName + ".json"
    ensures |f| <= |deckName| + 5
    ensures EndsWith(deckName, ".json") ==> f == deckName
  {
    if EndsWith(deckName, ".json") then deckName else deckName + ".json"
  }

  /** Normalising a deck name twice is normalising it once. */
  lemma DeckFileNameIdempotent(deckName: string)
    ensures DeckFileName(DeckFileName(deckName)) == DeckFileName(deckName)
  {
  }

  function DeckKey(category: string, deckName: string): string {
    JsonPrefix + "/" + category + "/" + DeckFileName(deckName)
  }

  /** `_get_deck_blob_path`: the key of the deck document, or
      `FileNotFoundError` when the store has no such document. */
  function DeckBlobPath(b: Bucket, category: string, deckName: string): (r: Result<string, DeckError>)
    reads b
    ensures r.Ok? <==> DeckKey(category, deckName) in b.decks
    ensures r.Ok? ==> r.value == DeckKey(category, deckName) && EndsWith(r.value, ".json")
    ensures r.Err? ==> r.error == DeckNotFound(DeckFileName(deckName), category)
  {
    var key := DeckKey(category, deckName);
    if key in b.decks then Ok(key) else Err(DeckNotFound(DeckFileName(deckName), category))
  }

  /** `list_decks` over the store's listing of `json/<category>/` blobs
      ending in `.json`: the file name part of each, in listing order, or
      `FileNotFoundError` when the listing is empty. */
  function ListDecks(category: string, blobNames: seq<string>): (r: Result<seq<string>, DeckError>)
    ensures r.Err? <==> blobNames == []
    ensures r.Err? ==> r.error == CategoryEmpty(category)
    ensures r.Ok? ==> |r.value| == |blobNames|
    ensures r.Ok? ==> forall k :: 0 <= k < |blobNames| ==>
              && '/' !in r.value[k]
              && EndsWith(blobNames[k], r.value[k])
              && (r.value[k] == blobNames[k] || EndsWith(blobNames[k], "/" + r.value[k]))
  {
    if blobNames == [] then Err(CategoryEmpty(category))
    else
      var names := seq(|blobNames|, k requires 0 <= k < |blobNames| => LastSegment(blobNames[k]));
      assert forall k :: 0 <= k < |blobNames| ==>
        (names[k] == blobNames[k] || EndsWith(blobNames[k], "/" + names[k])) by {
        forall k | 0 <= k < |blobNames|
          ensures names[k] == blobNames[k] || EndsWith(blobNames[k], "/" + names[k])
        {
          var s, n := blobNames[k], names[k];
          if |n| < |s| {
            assert s[|s| - |n| - 1..] == "/" + n;
          }
        }
      }
      Ok(names)
  }

  // ---------------------------------------------------------------------
  // Updates
  // ---------------------------------------------------------------------

  /** `update_card_status`: sets `learned` of one card. */
  method UpdateCardStatus(b: Bucket, category: string, deckName: string, index: int, learned: bool, writeFails: bool)
    returns (r: Result<(), DeckError>)
    modifies b`decks
    ensures var key := DeckKey(category, deckName);
      && (key !in old(b.decks) ==>
            r == Err(DeckNotFound(DeckFileName(deckName), category)) && b.decks == old(b.decks))
      && (key in old(b.decks) && !(0 <= index < |old(b.decks)[key]|) ==>
            r == Err(StatusIndexOutOfRange) && b.decks == old(b.decks))
      && (key in old(b.decks) && 0 <= index < |old(b.decks)[key]| && writeFails ==>
            r == Err(UploadFailed(StatusUpdate, key)) && b.decks == old(b.decks))
      && (key in old(b.decks) && 0 <= index < |old(b.decks)[key]| && !writeFails ==>
            && r == Ok(())
            && key in b.decks
            && b.decks == old(b.decks)[key := b.decks[key]]
            && LearnedSetAt(old(b.decks)[key], b.decks[key], index, learned))
  {
    var path := DeckBlobPath(b, category, deckName);
    if path.Err? {
      return Err(path.error);
    }
    var data := b.decks[path.value];
    if 0 <= index < |data| {
      data := data[index := data[index].(learned := Some(learned))];
    } else {
      return Err(StatusIndexOutOfRange);
    }
    var ok := b.WriteDeck(path.value, data, writeFails);
    if !ok {
      return Err(UploadFailed(StatusUpdate, path.value));
    }
    r := Ok(());
  }

  /** The inner loop of `reset_deck_status`: null every non-null `imagePath`. */
  method ResetDefinitions(defs: seq<Definition>) returns (r: seq<Definition>)
    ensures DefinitionsReset(defs, r)
  {
    r := defs;
    var m := 0;
    while m < |r|
      invariant 0 <= m <= |r| && |r| == |defs|
      invariant forall n :: 0 <= n < m ==> DefinitionReset(defs[n], r[n])
      invariant forall n :: m <= n < |r| ==> r[n] == defs[n]
    {
      if r[m].imagePath.Path? {
        r := r[m := r[m].(imagePath := Null)];
      }
      m := m + 1;
    }
  }

  /** The outer loop of `reset_deck_status`: every card unlearned, its
      definitions reset. */
  method ResetCards(data: Deck) returns (r: Deck)
    ensures DeckReset(data, r)
  {
    r := data;
    var k := 0;
    while k < |r|
      invariant 0 <= k <= |r| && |r| == |data|
      invariant forall n :: 0 <= n < k ==> CardReset(data[n], r[n])
      invariant forall n :: k <= n < |r| ==> r[n] == data[n]
    {
      var card := r[k].(learned := Some(false));
      if card.definitions.Some? {
        var defs := ResetDefinitions(card.definitions.value);
        card := card.(definitions := Some(defs));
      }
      r := r[k := card];
      k := k + 1;
    }
  }

  /** `reset_deck_status`: the whole deck unlearned and stripped of image
      references, written back. */
  method ResetDeckStatus(b: Bucket, category: string, deckName: string, writeFails: bool)
    returns (r: Result<(), DeckError>)
    modifies b`decks
    ensures var key := DeckKey(category, deckName);
      && (key !in old(b.decks) ==>
            r == Err(DeckNotFound(DeckFileName(deckName), category)) && b.decks == old(b.decks))
      && (key in old(b.decks) && writeFails ==>
            r == Err(UploadFailed(Reset, key)) && b.decks == old(b.decks))
      && (key in old(b.decks) && !writeFails ==>
            && r == Ok(())
            && key in b.decks
            && b.decks == old(b.decks)[key := b.decks[key]]
            && DeckReset(old(b.decks)[key], b.decks[key]))
  {
    var path := DeckBlobPath(b, category, deckName);
    if path.Err? {
      return Err(path.error);
    }
    var data := ResetCards(b.decks[path.value]);
    var ok := b.WriteDeck(path.value, data, writeFails);
    if !ok {
      return Err(UploadFailed(Reset, path.value));
    }
    r := Ok(());
  }

  /** The slot an `image_path` argument writes: a reference, or null for None. */
  function SlotOf(imagePath: Option<string>): Slot {
    if imagePath.Some? then Path(imagePath.value) else Null
  }

  /** The first check of `update_image_path_in_card` a deck fails, if any:
      the card index, then the presence of a definitions list, then the
      definition index. */
  function ImagePathCheck(cards: Deck, index: int, defIndex: int): (e: Option<DeckError>)
    ensures e == None <==>
              0 <= index < |cards| && cards[index].definitions.Some?
              && 0 <= defIndex < |cards[index].definitions.value|
    ensures !(0 <= index < |cards|) ==> e == Some(CardIndexOutOfRange(index))
    ensures 0 <= index < |cards| && cards[index].definitions.None? ==> e == Some(NoDefinitionsList(index))
    ensures 0 <= index < |cards| && cards[index].definitions.Some? ==>
              !(0 <= defIndex < |cards[index].definitions.value|) ==> e == Some(DefinitionIndexOutOfRange(defIndex))
  {
    if !(0 <= index < |cards|) then Some(CardIndexOutOfRange(index))
    else if cards[index].definitions.None? then Some(NoDefinitionsList(index))
    else if !(0 <= defIndex < |cards[index].definitions.value|) then Some(DefinitionIndexOutOfRange(defIndex))
    else None
  }

  /** The exception `update_image_path_in_card` raises on the given store,
      if any, in the order the source checks: the deck document, the card
      index, the definitions list, the definition index, the upload. */
  function ImagePathUpdateError(
    decks: map<string, Deck>, category: string, deckName: string, index: int, defIndex: int,
    writeFails: bool): (e: Option<DeckError>)
    ensures e == None <==>
              && DeckKey(category, deckName) in decks
              && ImagePathCheck(decks[DeckKey(category, deckName)], index, defIndex) == None
              && !writeFails
    ensures var key := DeckKey(category, deckName);
      key !in decks ==> e == Some(DeckNotFound(DeckFileName(deckName), category))
    ensures var key := DeckKey(category, deckName);
      key in decks && ImagePathCheck(decks[key], index, defIndex).Some? ==> e == ImagePathCheck(decks[key], index, defIndex)
    ensures var key := DeckKey(category, deckName);
      key in decks && ImagePathCheck(decks[key], index, defIndex) == None && writeFails ==>
        e == Some(UploadFailed(ImageUpdate, key))
  {
    var key := DeckKey(category, deckName);
    if key !in decks then Some(DeckNotFound(DeckFileName(deckName), category))
    else if ImagePathCheck(decks[key], index, defIndex).Some? then ImagePathCheck(decks[key], index, defIndex)
    else if writeFails then Some(UploadFailed(ImageUpdate, key))
    else None
  }

  /** `update_image_path_in_card`: sets the `imagePath` of one definition
      (None clears it); the indices are checked before anything is written. */
  method UpdateImagePathInCard(
    b: Bucket, category: string, deckName: string, index: int, defIndex: int,
    imagePath: Option<string>, writeFails: bool)
    returns (r: Result<(), DeckError>)
    modifies b`decks
    ensures var key := DeckKey(category, deckName);
      var e := ImagePathUpdateError(old(b.decks), category, deckName, index, defIndex, writeFails);
      && (e.Some? ==> r == Err(e.value) && b.decks == old(b.decks))
      && (e.None? ==>
            && r == Ok(())
            && key in b.decks
            && b.decks == old(b.decks)[key := b.decks[key]]
            && ImagePathSetAt(old(b.decks)[key], b.decks[key], index, defIndex, SlotOf(imagePath)))
  {
    var path := DeckBlobPath(b, category, deckName);
    if path.Err? {
      return Err(path.error);
    }
    var data := b.decks[path.value];
    if 0 <= index < |data| {
      var card := data[index];
      if card.definitions.Some? {
        var defs := card.definitions.value;
        if 0 <= defIndex < |defs| {
          defs := defs[defIndex := defs[defIndex].(imagePath := SlotOf(imagePath))];
          data := data[index := card.(definitions := Some(defs))];
        } else {
          return Err(DefinitionIndexOutOfRange(defIndex));
        }
      } else {
        return Err(NoDefinitionsList(index));
      }
    } else {
      return Err(CardIndexOutOfRange(index));
    }
    var ok := b.WriteDeck(path.value, data, writeFails);
    if !ok {
      return Err(UploadFailed(ImageUpdate, path.value));
    }
    r := Ok(());
  }
}
