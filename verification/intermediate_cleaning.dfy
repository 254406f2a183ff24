/**
 * `test/clear-only-file.py`: removes from the intermediate word list every
 * name the basic list has, and every repeated name, in place.
 */
module IntermediateCleaning {
  import opened Wrappers
  import opened ListDedup

  const BasicFile: string := "1-basic.json"
  const IntermediateFile: string := "2-intermediate.json"

  /** What iterating a file's parsed value yields; `None` when the file is
      missing or unreadable or its value cannot be iterated. This script
      never checks for a list. */
  function Iterated(docs: map<string, Doc>, file: string): (r: Option<seq<Item>>)
    ensures file in docs && docs[file].Items? ==> r == Some(docs[file].items)
    ensures r.Some? ==> file in docs && !docs[file].Unreadable?
  {
    if file !in docs then None
    else
      match docs[file]
      case Unreadable => None
      case NotAList(iterated) => iterated
      case Items(items) => Some(items)
  }

  /** `basic_names`: the names of the basic items that have one; `None` when
      an item makes the membership test or the lookup raise, or a name
      cannot be hashed. */
  function BasicNames(items: seq<Item>): (r: Option<set<string>>)
    ensures r.Some? <==> forall i :: 0 <= i < |items| ==> Classify(MembershipTest, items[i]) != Fails
    ensures r.Some? ==> r.value == Keys(MembershipTest, items)
    decreases |items|
  {
    if items == [] then Some({})
    else
      var init := items[..|items| - 1];
      assert forall i :: 0 <= i < |init| ==> init[i] == items[i];
      match BasicNames(init)
      case None => None
      case Some(names) =>
        match Classify(MembershipTest, items[|items| - 1])
        case Fails => None
        case Skip => Some(names)
        case Keyed(k) => Some(names + {k})
  }

  /** `limpiar_duplicados_en_sitio`: reads the basic names, filters the
      intermediate list against them and overwrites it. Any read error, an
      item that raises, or a failed write ends the run with nothing
      changed; the result is the loop's final state. */
  method CleanIntermediate(folder: JsonFolder, writeFails: bool) returns (r: Option<Tally>)
    modifies folder
    ensures var bs, ys := Iterated(old(folder.docs), BasicFile), Iterated(old(folder.docs), IntermediateFile);
      var names := if bs.Some? then BasicNames(bs.value) else None;
      && (r.Some? <==> names.Some? && ys.Some? && Run(MembershipTest, names.value, ys.value).Some? && !writeFails)
      && (r.None? ==> folder.docs == old(folder.docs))
      && (r.Some? ==>
            && r == Run(MembershipTest, names.value, ys.value)
            && r.value.kept == FirstOccurrences(MembershipTest, names.value, ys.value)
            && r.value.internal + r.value.external + |r.value.kept| <= |ys.value|
            && folder.docs == old(folder.docs)[IntermediateFile := Items(r.value.kept)])
  {
    var bs := Iterated(folder.docs, BasicFile);
    if bs.None? {
      return None;
    }
    var names := BasicNames(bs.value);
    if names.None? {
      return None;
    }
    var ys := Iterated(folder.docs, IntermediateFile);
    if ys.None? {
      return None;
    }
    var tally := FilterItems(MembershipTest, names.value, ys.value);
    if tally.None? || writeFails {
      return None;
    }
    RunMeaning(MembershipTest, names.value, ys.value);
    KeyedCountBound(MembershipTest, ys.value);
    folder.docs := folder.docs[IntermediateFile := Items(tally.value.kept)];
    r := tally;
  }
}
