/**
 * The filter shared by the two deck-list cleaning scripts: walk a parsed
 * JSON list, skip items without a usable `name`, drop items whose name is
 * in an exclusion set (external duplicates) or was already kept (internal
 * duplicates), and keep the rest in order.
 */
module ListDedup {
  import opened Wrappers
  import opened Text

  /** The value of an item's `name` member: hashable (a JSON string or
      other scalar, by its text) or not (a JSON list or object). */
  datatype Name = Key(key: string) | Unhashable

  /** One element of a parsed JSON list. */
  datatype Item =
    | Object(name: Option<Name>, others: seq<Item>)
    | Text(text: string)
    | Array(elements: seq<Item>)
    | Scalar

  /** A data file as the scripts find it. `NotAList` carries what Python
      iterating the value yields (the keys of an object, the characters of
      a string), or `None` when the value cannot be iterated. */
  datatype Doc =
    | Unreadable
    | NotAList(iterated: Option<seq<Item>>)
    | Items(items: seq<Item>)

  /** A folder of data files by name; the scripts overwrite files in it. */
  class JsonFolder {
    var docs: map<string, Doc>

    constructor (docs: map<string, Doc>)
      ensures this.docs == docs
    {
      this.docs := docs;
    }
  }

  /** How a script tests for a `name`: `test/clear.py` first checks that the
      item is an object; `test/clear-only-file.py` only asks `'name' in item`,
      which on a string is a substring test and on a list an element test,
      after which `item['name']` raises on anything but an object. */
  datatype Dialect = CheckedObjects | MembershipTest

  /** What the loop does with one item. */
  datatype Verdict = Skip | Keyed(key: string) | Fails

  function Classify(d: Dialect, item: Item): Verdict {
    match item
    case Object(name, _) =>
      if name.None? then Skip
      else if name.value.Unhashable? then Fails
      else Keyed(name.value.key)
    case Text(t) =>
      if d == MembershipTest && Occurs(t, "name") then Fails else Skip
    case Array(elements) =>
      if d == MembershipTest && Text("name") in elements then Fails else Skip
    case Scalar =>
      if d == MembershipTest then Fails else Skip
  }

  /** The state of the loop: the kept list, the names seen, and the two
      skip counters. */
  datatype Tally = Tally(kept: seq<Item>, seen: set<string>, internal: nat, external: nat)

  function Step(d: Dialect, exclude: set<string>, t: Tally, item: Item): Option<Tally> {
    match Classify(d, item)
    case Skip => Some(t)
    case Fails => None
    case Keyed(k) =>
      if k in exclude then Some(t.(external := t.external + 1))
      else if k in t.seen then Some(t.(internal := t.internal + 1))
      else Some(t.(kept := t.kept + [item], seen := t.seen + {k}))
  }

  /** The loop over a whole list; `None` when an item raises. */
  function Run(d: Dialect, exclude: set<string>, items: seq<Item>): Option<Tally>
    decreases |items|
  {
    if items == [] then Some(Tally([], {}, 0, 0))
    else
      match Run(d, exclude, items[..|items| - 1])
      case None => None
      case Some(t) => Step(d, exclude, t, items[|items| - 1])
  }

  /** The names of the items that have a usable name. */
  function Keys(d: Dialect, items: seq<Item>): set<string>
    decreases |items|
  {
    if items == [] then {}
    else
      var last := Classify(d, items[|items| - 1]);
      Keys(d, items[..|items| - 1]) + (if last.Keyed? then {last.key} else {})
  }

  /** The number of items that have a usable name. */
  function KeyedCount(d: Dialect, items: seq<Item>): nat
    decreases |items|
  {
    if items == [] then 0
    else KeyedCount(d, items[..|items| - 1]) + (if Classify(d, items[|items| - 1]).Keyed? then 1 else 0)
  }

  /** Reference definition of the result: the first item of every name not
      excluded, in input order. */
  function FirstOccurrences(d: Dialect, exclude: set<string>, items: seq<Item>): seq<Item>
    decreases |items|
  {
    if items == [] then []
    else
      var init, last := items[..|items| - 1], Classify(d, items[|items| - 1]);
      FirstOccurrences(d, exclude, init)
        + (if last.Keyed? && last.key !in exclude && last.key !in Keys(d, init) then [items[|items| - 1]] else [])
  }

  /** Every item has a name, none excluded, no two the same. */
  predicate Clean(d: Dialect, exclude: set<string>, s: seq<Item>) {
    && (forall i :: 0 <= i < |s| ==> Classify(d, s[i]).Keyed? && Classify(d, s[i]).key !in exclude)
    && (forall i, j :: 0 <= i < j < |s| ==> Classify(d, s[i]) != Classify(d, s[j]))
  }

  /** `a` is `b` with some items left out, in the same order. */
  predicate Subsequence(a: seq<Item>, b: seq<Item>)
    decreases |b|
  {
    if a == [] then true
    else if b == [] then false
    else (a[|a| - 1] == b[|b| - 1] && Subsequence(a[..|a| - 1], b[..|b| - 1])) || Subsequence(a, b[..|b| - 1])
  }

  /** The loop of `clean_json_file` and of `limpiar_duplicados_en_sitio`. */
  method FilterItems(d: Dialect, exclude: set<string>, items: seq<Item>) returns (r: Option<Tally>)
    ensures r == Run(d, exclude, items)
  {
    var t := Tally([], {}, 0, 0);
    var k := 0;
    while k < |items|
      invariant 0 <= k <= |items|
      invariant Run(d, exclude, items[..k]) == Some(t)
    {
      var item := items[k];
      assert items[..k + 1][..k] == items[..k];
      match Classify(d, item) {
        case Skip =>
        case Fails =>
          RunStaysNone(d, exclude, items, k + 1);
          return None;
        case Keyed(name) =>
          if name in exclude {
            t := t.(external := t.external + 1);
          } else if name in t.seen {
            t := t.(internal := t.internal + 1);
          } else {
            t := t.(kept := t.kept + [item], seen := t.seen + {name});
          }
      }
      k := k + 1;
    }
    assert items[..k] == items;
    r := Some(t);
  }

  /** Once an item has raised, the rest of the list does not matter. */
  lemma {:induction false} RunStaysNone(d: Dialect, exclude: set<string>, items: seq<Item>, k: nat)
    requires k <= |items| && Run(d, exclude, items[..k]).None?
    ensures Run(d, exclude, items).None?
    decreases |items| - k
  {
    if k < |items| {
      assert items[..k + 1][..k] == items[..k];
      RunStaysNone(d, exclude, items, k + 1);
    } else {
      assert items[..k] == items;
    }
  }

  /** A name is collected exactly when some item carries it. */
  lemma {:induction false} KeysMeaning(d: Dialect, items: seq<Item>, k: string)
    ensures k in Keys(d, items) <==> exists i :: 0 <= i < |items| && Classify(d, items[i]) == Keyed(k)
    decreases |items|
  {
    if items != [] {
      var init := items[..|items| - 1];
      KeysMeaning(d, init, k);
      if k in Keys(d, init) {
        var i :| 0 <= i < |init| && Classify(d, init[i]) == Keyed(k);
        assert items[i] == init[i];
      }
      if exists i :: 0 <= i < |items| && Classify(d, items[i]) == Keyed(k) {
        var i :| 0 <= i < |items| && Classify(d, items[i]) == Keyed(k);
        if i < |init| {
          assert init[i] == items[i];
        }
      }
    }
  }

  /** The loop fails exactly when some item raises. */
  lemma {:induction false} RunFailsIff(d: Dialect, exclude: set<string>, items: seq<Item>)
    ensures Run(d, exclude, items).None? <==> exists i :: 0 <= i < |items| && Classify(d, items[i]) == Fails
    decreases |items|
  {
    if items != [] {
      var init := items[..|items| - 1];
      RunFailsIff(d, exclude, init);
      if exists i :: 0 <= i < |init| && Classify(d, init[i]) == Fails {
        var i :| 0 <= i < |init| && Classify(d, init[i]) == Fails;
        assert items[i] == init[i];
      }
      if exists i :: 0 <= i < |items| && Classify(d, items[i]) == Fails {
        var i :| 0 <= i < |items| && Classify(d, items[i]) == Fails;
        if i < |init| {
          assert init[i] == items[i];
        }
      }
    }
  }

  /** What the loop computes: the kept list is the first occurrence of
      every name not excluded, the seen set is every name not excluded, and
      every named item is kept or counted once. */
  lemma {:induction false} RunMeaning(d: Dialect, exclude: set<string>, items: seq<Item>)
    requires Run(d, exclude, items).Some?
    ensures var t := Run(d, exclude, items).value;
      && t.kept == FirstOccurrences(d, exclude, items)
      && t.seen == Keys(d, items) - exclude
      && t.internal + t.external + |t.kept| == KeyedCount(d, items)
    decreases |items|
  {
    if items != [] {
      var init, x := items[..|items| - 1], items[|items| - 1];
      RunMeaning(d, exclude, init);
      var t0 := Run(d, exclude, init).value;
      var t := Run(d, exclude, items).value;
      var fo0 := FirstOccurrences(d, exclude, init);
      var v := Classify(d, x);
      assert t0.seen == Keys(d, init) - exclude;
      match v {
        case Skip =>
          assert t == t0;
          assert FirstOccurrences(d, exclude, items) == fo0 + [];
          assert Keys(d, items) == Keys(d, init) + {};
        case Fails =>
        case Keyed(k) =>
          assert Keys(d, items) == Keys(d, init) + {k};
          assert KeyedCount(d, items) == KeyedCount(d, init) + 1;
          if k in exclude {
            assert t == t0.(external := t0.external + 1);
            assert FirstOccurrences(d, exclude, items) == fo0 + [];
          } else if k in t0.seen {
            assert t == t0.(internal := t0.internal + 1);
            assert FirstOccurrences(d, exclude, items) == fo0 + [];
          } else {
            assert t == t0.(kept := t0.kept + [x], seen := t0.seen + {k});
            assert FirstOccurrences(d, exclude, items) == fo0 + [x];
          }
      }
    }
  }

  /** `Keys` on a list with one more item at the end. */
  lemma KeysSnoc(d: Dialect, s: seq<Item>, x: Item)
    ensures var v := Classify(d, x);
      Keys(d, s + [x]) == Keys(d, s) + (if v.Keyed? then {v.key} else {})
  {
    assert (s + [x])[..|s|] == s;
  }

  /** `FirstOccurrences` on a list with one more item at the end. */
  lemma FirstOccurrencesSnoc(d: Dialect, exclude: set<string>, s: seq<Item>, x: Item)
    ensures var v := Classify(d, x);
      FirstOccurrences(d, exclude, s + [x]) ==
        FirstOccurrences(d, exclude, s) + (if v.Keyed? && v.key !in exclude && v.key !in Keys(d, s) then [x] else [])
  {
    assert (s + [x])[..|s|] == s;
  }

  /** The kept items carry the same names as the whole list once the
      exclusions are removed. */
  lemma {:induction false} FirstOccurrencesKeys(d: Dialect, exclude: set<string>, items: seq<Item>)
    ensures Keys(d, FirstOccurrences(d, exclude, items)) == Keys(d, items) - exclude
    decreases |items|
  {
    if items != [] {
      var init, x := items[..|items| - 1], items[|items| - 1];
      assert items == init + [x];
      FirstOccurrencesKeys(d, exclude, init);
      FirstOccurrencesKeysStep(d, exclude, init, x);
    }
  }

  lemma FirstOccurrencesKeysStep(d: Dialect, exclude: set<string>, init: seq<Item>, x: Item)
    requires Keys(d, FirstOccurrences(d, exclude, init)) == Keys(d, init) - exclude
    ensures Keys(d, FirstOccurrences(d, exclude, init + [x])) == Keys(d, init + [x]) - exclude
  {
    var v := Classify(d, x);
    if !v.Keyed? || v.key in exclude || v.key in Keys(d, init) {
      DroppedItemKeys(d, exclude, init, x);
    } else {
      KeptItemKeys(d, exclude, init, x);
    }
  }

  lemma DroppedItemKeys(d: Dialect, exclude: set<string>, init: seq<Item>, x: Item)
    requires Keys(d, FirstOccurrences(d, exclude, init)) == Keys(d, init) - exclude
    requires var v := Classify(d, x); !v.Keyed? || v.key in exclude || v.key in Keys(d, init)
    ensures Keys(d, FirstOccurrences(d, exclude, init + [x])) == Keys(d, init + [x]) - exclude
  {
    FirstOccurrencesSnoc(d, exclude, init, x);
    KeysSnoc(d, init, x);
    var fo0 := FirstOccurrences(d, exclude, init);
    assert FirstOccurrences(d, exclude, init + [x]) == fo0 + [] == fo0;
  }

  lemma KeptItemKeys(d: Dialect, exclude: set<string>, init: seq<Item>, x: Item)
    requires Keys(d, FirstOccurrences(d, exclude, init)) == Keys(d, init) - exclude
    requires var v := Classify(d, x); v.Keyed? && v.key !in exclude && v.key !in Keys(d, init)
    ensures Keys(d, FirstOccurrences(d, exclude, init + [x])) == Keys(d, init + [x]) - exclude
  {
    FirstOccurrencesSnoc(d, exclude, init, x);
    var fo0 := FirstOccurrences(d, exclude, init);
    KeysSnoc(d, fo0, x);
    KeysSnoc(d, init, x);
  }

  /** The kept items all have names, none excluded, pairwise distinct. */
  lemma {:induction false} FirstOccurrencesShape(d: Dialect, exclude: set<string>, items: seq<Item>)
    ensures Clean(d, exclude, FirstOccurrences(d, exclude, items))
    decreases |items|
  {
    if items != [] {
      var init, x := items[..|items| - 1], items[|items| - 1];
      assert items == init + [x];
      FirstOccurrencesShape(d, exclude, init);
      FirstOccurrencesSnoc(d, exclude, init, x);
      var fo0 := FirstOccurrences(d, exclude, init);
      var v := Classify(d, x);
      if v.Keyed? && v.key !in exclude && v.key !in Keys(d, init) {
        FirstOccurrencesKeys(d, exclude, init);
        KeysMeaning(d, fo0, v.key);
        CleanSnoc(d, exclude, fo0, x);
      } else {
        assert fo0 + [] == fo0;
      }
    }
  }

  /** A clean list stays clean with one more item whose name is new and not
      excluded, and only then. */
  lemma CleanSnoc(d: Dialect, exclude: set<string>, s: seq<Item>, x: Item)
    requires Clean(d, exclude, s)
    ensures var v := Classify(d, x);
      Clean(d, exclude, s + [x]) <==>
        v.Keyed? && v.key !in exclude && forall j :: 0 <= j < |s| ==> Classify(d, s[j]) != v
  {
    var t := s + [x];
    assert forall j :: 0 <= j < |s| ==> t[j] == s[j];
    assert t[|s|] == x;
  }

  /** The last item of a clean list has a new name and the rest is clean. */
  lemma CleanInit(d: Dialect, exclude: set<string>, s: seq<Item>, x: Item)
    requires Clean(d, exclude, s + [x])
    ensures Clean(d, exclude, s)
    ensures var v := Classify(d, x); v.Keyed? && v.key !in exclude && v.key !in Keys(d, s)
  {
    var t := s + [x];
    assert forall j :: 0 <= j < |s| ==> t[j] == s[j];
    assert t[|s|] == x;
    KeysMeaning(d, s, Classify(d, x).key);
  }

  /** The kept list is the input with items left out, in input order. */
  lemma {:induction false} FirstOccurrencesSubsequence(d: Dialect, exclude: set<string>, items: seq<Item>)
    ensures Subsequence(FirstOccurrences(d, exclude, items), items)
    decreases |items|
  {
    if items != [] {
      var init, x := items[..|items| - 1], items[|items| - 1];
      FirstOccurrencesSubsequence(d, exclude, init);
      var fo0 := FirstOccurrences(d, exclude, init);
      var fo := FirstOccurrences(d, exclude, items);
      if fo == fo0 + [x] {
        assert fo[..|fo| - 1] == fo0;
      } else {
        assert fo == fo0 + [] == fo0;
      }
    }
  }

  /** The first item carrying a name that is not excluded is kept. */
  lemma {:induction false} FirstOccurrenceKept(d: Dialect, exclude: set<string>, items: seq<Item>, i: nat)
    requires i < |items| && Classify(d, items[i]).Keyed? && Classify(d, items[i]).key !in exclude
    requires forall j :: 0 <= j < i ==> Classify(d, items[j]) != Classify(d, items[i])
    ensures items[i] in FirstOccurrences(d, exclude, items)
    decreases |items|
  {
    var init := items[..|items| - 1];
    if i < |init| {
      assert init[i] == items[i];
      FirstOccurrenceKept(d, exclude, init, i);
    } else {
      KeysMeaning(d, init, Classify(d, items[i]).key);
    }
  }

  /** At most one counter step per item: named items never outnumber the
      list, and every item is named when all are objects with a hashable
      name. */
  lemma {:induction false} KeyedCountBound(d: Dialect, items: seq<Item>)
    ensures KeyedCount(d, items) <= |items|
    ensures (forall i :: 0 <= i < |items| ==> Classify(d, items[i]).Keyed?) ==> KeyedCount(d, items) == |items|
    decreases |items|
  {
    if items != [] {
      var init := items[..|items| - 1];
      KeyedCountBound(d, init);
      if forall i :: 0 <= i < |items| ==> Classify(d, items[i]).Keyed? {
        assert forall i :: 0 <= i < |init| ==> init[i] == items[i];
      }
    }
  }

  /** A list of named, non-excluded items with distinct names is its own
      first-occurrence list. */
  lemma {:induction false} FirstOccurrencesOfClean(d: Dialect, exclude: set<string>, items: seq<Item>)
    requires Clean(d, exclude, items)
    ensures FirstOccurrences(d, exclude, items) == items
    decreases |items|
  {
    if items != [] {
      var init, x := items[..|items| - 1], items[|items| - 1];
      assert items == init + [x];
      CleanInit(d, exclude, init, x);
      FirstOccurrencesOfClean(d, exclude, init);
      FirstOccurrencesSnoc(d, exclude, init, x);
    }
  }

  /** Cleaning a cleaned list again with the same exclusions keeps every
      item and skips nothing. */
  lemma CleaningTwiceChangesNothing(d: Dialect, exclude: set<string>, items: seq<Item>)
    requires Run(d, exclude, items).Some?
    ensures var t := Run(d, exclude, items).value;
      Run(d, exclude, t.kept) == Some(Tally(t.kept, t.seen, 0, 0))
  {
    var t := Run(d, exclude, items).value;
    assert t.kept == FirstOccurrences(d, exclude, items) && t.seen == Keys(d, items) - exclude by {
      RunMeaning(d, exclude, items);
    }
    assert Keys(d, t.kept) == t.seen by {
      FirstOccurrencesKeys(d, exclude, items);
    }
    assert Clean(d, exclude, t.kept) by {
      FirstOccurrencesShape(d, exclude, items);
    }
    assert Run(d, exclude, t.kept).Some? by {
      RunFailsIff(d, exclude, t.kept);
    }
    var t2 := Run(d, exclude, t.kept).value;
    assert t2.kept == t.kept by {
      RunMeaning(d, exclude, t.kept);
      FirstOccurrencesOfClean(d, exclude, t.kept);
    }
    assert t2.seen == t.seen by {
      RunMeaning(d, exclude, t.kept);
    }
    assert t2.internal + t2.external == 0 by {
      RunMeaning(d, exclude, t.kept);
      KeyedCountBound(d, t.kept);
    }
  }
}
