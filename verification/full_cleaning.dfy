/**
 * `test/clear.py`: cleans the basic, intermediate and advanced word lists
 * in turn, each against the names kept in the lists before it.
 */
module FullCleaning {
  import opened Wrappers
  import opened ListDedup

  const BasicFile: string := "1-basic.json"
  const IntermediateFile: string := "2-intermediate.json"
  const AdvancedFile: string := "3-advanced.json"

  /** The list a file holds, when it exists and holds a list. */
  function ListIn(docs: map<string, Doc>, file: string): Option<seq<Item>> {
    if file in docs && docs[file].Items? then Some(docs[file].items) else None
  }

  /** The keys of the list a file holds, or none when it holds no list. */
  function KeysIn(docs: map<string, Doc>, file: string): set<string> {
    if ListIn(docs, file).Some? then Keys(CheckedObjects, ListIn(docs, file).value) else {}
  }

  /** `clean_json_file` succeeds on `file`: it holds a list, no item raises
      under the exclusion `exclude`, and the write does not fail. */
  predicate Cleans(docs: map<string, Doc>, file: string, exclude: set<string>, writeFails: bool) {
    var xs := ListIn(docs, file);
    xs.Some? && Run(CheckedObjects, exclude, xs.value).Some? && !writeFails
  }

  /** `clean_json_file`: filters one file against `exclude`, overwrites it
      with the kept items and returns the kept names; a missing or
      unreadable file, a value that is not a list, an item whose name cannot
      be hashed, or a failed write gives `None` and leaves the file as it
      was. */
  method CleanJsonFile(folder: JsonFolder, file: string, exclude: set<string>, writeFails: bool)
    returns (names: Option<set<string>>)
    modifies folder
    ensures var xs := ListIn(old(folder.docs), file);
      && (names.Some? <==> Cleans(old(folder.docs), file, exclude, writeFails))
      && (names.None? ==> folder.docs == old(folder.docs))
      && (names.Some? ==>
            && names.value == Keys(CheckedObjects, xs.value) - exclude
            && folder.docs == old(folder.docs)[file := Items(FirstOccurrences(CheckedObjects, exclude, xs.value))])
  {
    if file !in folder.docs || !folder.docs[file].Items? {
      return None;
    }
    var items := folder.docs[file].items;
    var tally := FilterItems(CheckedObjects, exclude, items);
    if tally.None? || writeFails {
      return None;
    }
    RunMeaning(CheckedObjects, exclude, items);
    folder.docs := folder.docs[file := Items(tally.value.kept)];
    names := Some(tally.value.seen);
  }

  /** How the whole run ends: at the first file that could not be cleaned,
      or with the names kept in each file. */
  datatype Outcome =
    | Aborted(file: string)
    | Cleaned(basic: set<string>, intermediate: set<string>, advanced: set<string>)

  /** `run_full_cleaning_process`: the basic list against nothing, the
      intermediate list against the basic names, the advanced list against
      both; it stops at the first file that fails. */
  method RunFullCleaningProcess(folder: JsonFolder, basicFails: bool, intermediateFails: bool, advancedFails: bool)
    returns (r: Outcome)
    modifies folder
    ensures r.Aborted? ==> r.file == BasicFile || r.file == IntermediateFile || r.file == AdvancedFile
    ensures var d := old(folder.docs);
      r == Aborted(BasicFile) <==> !Cleans(d, BasicFile, {}, basicFails)
    ensures var d := old(folder.docs);
      r == Aborted(IntermediateFile) <==>
        Cleans(d, BasicFile, {}, basicFails) && !Cleans(d, IntermediateFile, KeysIn(d, BasicFile), intermediateFails)
    ensures var d := old(folder.docs);
      r == Aborted(AdvancedFile) <==>
        && Cleans(d, BasicFile, {}, basicFails)
        && Cleans(d, IntermediateFile, KeysIn(d, BasicFile), intermediateFails)
        && !Cleans(d, AdvancedFile, KeysIn(d, BasicFile) + KeysIn(d, IntermediateFile), advancedFails)
    ensures var d := old(folder.docs);
      r.Cleaned? <==>
        && Cleans(d, BasicFile, {}, basicFails)
        && Cleans(d, IntermediateFile, KeysIn(d, BasicFile), intermediateFails)
        && Cleans(d, AdvancedFile, KeysIn(d, BasicFile) + KeysIn(d, IntermediateFile), advancedFails)
    ensures r == Aborted(BasicFile) ==> folder.docs == old(folder.docs)
    ensures var d := old(folder.docs);
      r == Aborted(IntermediateFile) ==>
        && ListIn(d, BasicFile).Some?
        && folder.docs == d[BasicFile := Items(FirstOccurrences(CheckedObjects, {}, ListIn(d, BasicFile).value))]
    ensures var d := old(folder.docs);
      r == Aborted(AdvancedFile) ==>
        && ListIn(d, BasicFile).Some? && ListIn(d, IntermediateFile).Some?
        && folder.docs == d[BasicFile := Items(FirstOccurrences(CheckedObjects, {}, ListIn(d, BasicFile).value))]
                           [IntermediateFile := Items(FirstOccurrences(CheckedObjects, KeysIn(d, BasicFile),
                                                                       ListIn(d, IntermediateFile).value))]
    ensures r.Cleaned? ==>
              var b, i, a := ListIn(old(folder.docs), BasicFile), ListIn(old(folder.docs), IntermediateFile),
                             ListIn(old(folder.docs), AdvancedFile);
              && b.Some? && i.Some? && a.Some?
              && r.basic == Keys(CheckedObjects, b.value)
              && r.intermediate == Keys(CheckedObjects, i.value) - r.basic
              && r.advanced == Keys(CheckedObjects, a.value) - (r.basic + r.intermediate)
              && folder.docs == old(folder.docs)
                   [BasicFile := Items(FirstOccurrences(CheckedObjects, {}, b.value))]
                   [IntermediateFile := Items(FirstOccurrences(CheckedObjects, r.basic, i.value))]
                   [AdvancedFile := Items(FirstOccurrences(CheckedObjects, r.basic + r.intermediate, a.value))]
    ensures r.Cleaned? ==> r.basic !! r.intermediate && r.basic !! r.advanced && r.intermediate !! r.advanced
  {
    assert BasicFile[0] != IntermediateFile[0] && BasicFile[0] != AdvancedFile[0];
    assert IntermediateFile[0] != AdvancedFile[0];
    ghost var d := folder.docs;
    var basic := CleanJsonFile(folder, BasicFile, {}, basicFails);
    if basic.None? {
      return Aborted(BasicFile);
    }
    assert basic.value == KeysIn(d, BasicFile);
    assert ListIn(folder.docs, IntermediateFile) == ListIn(d, IntermediateFile);
    assert ListIn(folder.docs, AdvancedFile) == ListIn(d, AdvancedFile);
    ghost var afterBasic := folder.docs;
    var intermediate := CleanJsonFile(folder, IntermediateFile, basic.value, intermediateFails);
    if intermediate.None? {
      return Aborted(IntermediateFile);
    }
    assert ListIn(folder.docs, AdvancedFile) == ListIn(afterBasic, AdvancedFile);
    var previous := basic.value + intermediate.value;
    assert previous == KeysIn(d, BasicFile) + KeysIn(d, IntermediateFile);
    var advanced := CleanJsonFile(folder, AdvancedFile, previous, advancedFails);
    if advanced.None? {
      return Aborted(AdvancedFile);
    }
    r := Cleaned(basic.value, intermediate.value, advanced.value);
  }
}
