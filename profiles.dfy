/**
 * Extraction profiles (profile_manager.py): a profile is an ordered list of
 * (sheet pattern, columns) pairs plus watch folders and output settings; a
 * ProfileManager keeps the profiles by name together with the name of the
 * default one. Disk writes are modelled as always succeeding.
 */
module Profiles {
  import opened PyStrings
  import opened OrderedDicts
  import opened Tables
  import opened UniqueNames
  import opened PyLists

  /** A `(sheet_pattern, column_list)` entry of a profile. */
  type ColumnPattern = (string, seq<string>)

  // ---------------------------------------------------------------------
  // The pattern language

  /** `_pattern_matches_sheet`: `file:F|sheet:S` names one file and sheet,
      any other text is a sheet name. */
  function PatternMatchesSheet(pattern: string, fileName: string, sheetName: string): bool {
    if StartsWith(pattern, "file:") then
      var parts := Split(pattern, '|');
      if |parts| != 2 then false
      else
        && fileName == Strip(Replace(parts[0], "file:", ""))
        && sheetName == Strip(Replace(parts[1], "sheet:", ""))
    else sheetName == pattern
  }

  /** A bare pattern matches by sheet name alone, whatever the file. */
  lemma BarePattern(pattern: string, fileName: string, sheetName: string)
    requires !StartsWith(pattern, "file:")
    ensures PatternMatchesSheet(pattern, fileName, sheetName) <==> sheetName == pattern
  {
  }

  /** A `file:` pattern matches exactly when it has one bar and both halves,
      with their tags removed and stripped, name the file and the sheet; with
      any other number of bars it matches nothing. */
  lemma FilePatternMatch(pattern: string, fileName: string, sheetName: string)
    requires StartsWith(pattern, "file:")
    ensures multiset(pattern)['|'] == 1 <==> |Split(pattern, '|')| == 2
    ensures PatternMatchesSheet(pattern, fileName, sheetName) <==>
      && multiset(pattern)['|'] == 1
      && fileName == Strip(Replace(Split(pattern, '|')[0], "file:", ""))
      && sheetName == Strip(Replace(Split(pattern, '|')[1], "sheet:", ""))
  {
    SplitCount(pattern, '|');
  }

  /** `f"file:{file_name}|sheet:{sheet_name}"` */
  function FilePattern(fileName: string, sheetName: string): string {
    "file:" + fileName + "|sheet:" + sheetName
  }

  /** The built pattern selects exactly its own file and sheet, provided the
      names have no bar, no tag text and no surrounding whitespace. */
  lemma FilePatternRoundTrip(file: string, sheet: string, fileName: string, sheetName: string)
    requires '|' !in file && '|' !in sheet
    requires !Occurs(file, "file:") && !Occurs(sheet, "sheet:")
    requires Trimmed(file) && Trimmed(sheet)
    ensures PatternMatchesSheet(FilePattern(file, sheet), fileName, sheetName) <==>
      fileName == file && sheetName == sheet
  {
    FilePatternFacts(file, sheet);
    FilePatternMatchParts(FilePattern(file, sheet), "file:" + file, "sheet:" + sheet, file, sheet, fileName, sheetName);
  }

  lemma FilePatternFacts(file: string, sheet: string)
    requires '|' !in file && '|' !in sheet
    requires !Occurs(file, "file:") && !Occurs(sheet, "sheet:")
    requires Trimmed(file) && Trimmed(sheet)
    ensures StartsWith(FilePattern(file, sheet), "file:")
    ensures Split(FilePattern(file, sheet), '|') == ["file:" + file, "sheet:" + sheet]
    ensures Strip(Replace("file:" + file, "file:", "")) == file
    ensures Strip(Replace("sheet:" + sheet, "sheet:", "")) == sheet
  {
    FilePatternParts(file, sheet);
    TagRemoved("file:", file);
    TagRemoved("sheet:", sheet);
  }

  /** A `file:` pattern with two parts whose cleaned halves are f and s
      matches exactly the file f and the sheet s. */
  lemma FilePatternMatchParts(pattern: string, a: string, b: string, f: string, s: string,
                              fileName: string, sheetName: string)
    requires StartsWith(pattern, "file:") && Split(pattern, '|') == [a, b]
    requires Strip(Replace(a, "file:", "")) == f && Strip(Replace(b, "sheet:", "")) == s
    ensures PatternMatchesSheet(pattern, fileName, sheetName) <==> fileName == f && sheetName == s
  {
  }

  /** The built pattern starts with its tag and splits at its one bar. */
  lemma FilePatternParts(file: string, sheet: string)
    requires '|' !in file && '|' !in sheet
    ensures StartsWith(FilePattern(file, sheet), "file:")
    ensures Split(FilePattern(file, sheet), '|') == ["file:" + file, "sheet:" + sheet]
  {
    var a := "file:" + file;
    var b := "sheet:" + sheet;
    var p := FilePattern(file, sheet);
    assert p == a + ['|'] + b;
    assert p[..5] == a[..5] == "file:";
    TagNoBar("file:", file);
    TagNoBar("sheet:", sheet);
    SplitAt(a, '|', b);
    SplitNoSep(b, '|');
  }

  /** A bar-free tag followed by a bar-free name has no bar. */
  lemma TagNoBar(tag: string, name: string)
    requires '|' !in tag && '|' !in name
    ensures '|' !in tag + name
  {
  }

  /** Taking the tag off a tagged name and stripping gives the name back. */
  lemma TagRemoved(tag: string, name: string)
    requires |tag| > 0 && !Occurs(name, tag) && Trimmed(name)
    ensures Strip(Replace(tag + name, tag, "")) == name
  {
    ReplaceAtPrefix(tag, name);
    StripTrimmed(name);
  }

  /** A file name with a bar in it cannot be selected by its own pattern. */
  lemma BarInFileName()
    ensures !PatternMatchesSheet(FilePattern("a|b.xlsx", "Data"), "a|b.xlsx", "Data")
  {
    var p := FilePattern("a|b.xlsx", "Data");
    assert p[..5] == "file:";
    assert p == "file:a" + ['|'] + ("b.xlsx" + ['|'] + "sheet:Data");
    SplitAt("file:a", '|', "b.xlsx" + ['|'] + "sheet:Data");
    SplitAt("b.xlsx", '|', "sheet:Data");
    assert |Split(p, '|')| == 2 + |Split("sheet:Data", '|')|;
  }

  // ---------------------------------------------------------------------
  // match_to_new_files

  /** The innermost loop: append each listed column that the sheet has and
      that is not already in the list. */
  function AddAbsent(acc: seq<string>, columns: seq<string>, available: seq<string>): (r: seq<string>)
    ensures |acc| <= |r| && r[..|acc|] == acc
    ensures forall x :: x in r <==> x in acc || (x in columns && x in available)
    ensures Distinct(acc) ==> Distinct(r)
    decreases |columns|
  {
    if columns == [] then acc
    else
      var prev := AddAbsent(acc, columns[..|columns| - 1], available);
      var c := columns[|columns| - 1];
      assert forall x :: x in columns <==> x in columns[..|columns| - 1] || x == c;
      if c in available && c !in prev then prev + [c] else prev
  }

  /** The column loop's step: the next column is appended when the sheet
      has it and the list lacks it. */
  lemma AddAbsentStep(start: seq<string>, columns: seq<string>, c: nat, available: seq<string>)
    requires c < |columns|
    ensures var prev := AddAbsent(start, columns[..c], available);
      AddAbsent(start, columns[..c + 1], available) ==
        if columns[c] in available && columns[c] !in prev then prev + [columns[c]] else prev
  {
    assert columns[..c + 1][..c] == columns[..c];
    assert columns[..c + 1][c] == columns[c];
  }

  /** One (pattern, file, sheet) visit of the nested loops. */
  function Step(sel: Selection, pattern: string, columns: seq<string>,
                fileName: string, sheetName: string, t: Table): Selection
  {
    if PatternMatchesSheet(pattern, fileName, sheetName) then
      var fileSel := GetOr(sel, fileName, []);
      Put(sel, fileName, Put(fileSel, sheetName, AddAbsent(GetOr(fileSel, sheetName, []), columns, t.columns)))
    else sel
  }

  /** The sheet loop for one pattern and one file. */
  function MatchSheets(sel: Selection, pattern: string, columns: seq<string>,
                       fileName: string, sheets: Sheets): Selection
    decreases |sheets|
  {
    if sheets == [] then sel
    else
      var last := sheets[|sheets| - 1];
      Step(MatchSheets(sel, pattern, columns, fileName, sheets[..|sheets| - 1]),
           pattern, columns, fileName, last.0, last.1)
  }

  /** The file loop for one pattern. */
  function MatchFiles(sel: Selection, pattern: string, columns: seq<string>, files: FileData): Selection
    decreases |files|
  {
    if files == [] then sel
    else
      var last := files[|files| - 1];
      MatchSheets(MatchFiles(sel, pattern, columns, files[..|files| - 1]), pattern, columns, last.0, last.1)
  }

  /** The pattern loop. */
  function MatchPatterns(sel: Selection, patterns: seq<ColumnPattern>, fd: FileData): Selection
    decreases |patterns|
  {
    if patterns == [] then sel
    else
      var last := patterns[|patterns| - 1];
      MatchFiles(MatchPatterns(sel, patterns[..|patterns| - 1], fd), last.0, last.1, fd)
  }

  /** What `match_to_new_files` returns. */
  function MatchToNewFilesSpec(patterns: seq<ColumnPattern>, fd: FileData): Selection {
    MatchPatterns([], patterns, fd)
  }

  /** Reference definition for one (file, sheet): the patterns that match it,
      in order, each adding its columns that the sheet has and that are not
      already listed; no entry at all when no pattern matches. */
  function ColumnsFor(start: Option<seq<string>>, patterns: seq<ColumnPattern>,
                      fileName: string, sheetName: string, available: seq<string>): Option<seq<string>>
    decreases |patterns|
  {
    if patterns == [] then start
    else
      var prev := ColumnsFor(start, patterns[..|patterns| - 1], fileName, sheetName, available);
      var last := patterns[|patterns| - 1];
      if PatternMatchesSheet(last.0, fileName, sheetName) then
        Some(AddAbsent(if prev.Some? then prev.value else [], last.1, available))
      else prev
  }

  /** Some pattern of the profile selects this (file, sheet). */
  predicate AnyMatch(patterns: seq<ColumnPattern>, fileName: string, sheetName: string) {
    exists i :: 0 <= i < |patterns| && PatternMatchesSheet(patterns[i].0, fileName, sheetName)
  }

  /** Columns that some matching pattern lists. */
  predicate Requested(patterns: seq<ColumnPattern>, fileName: string, sheetName: string, x: string) {
    exists i :: 0 <= i < |patterns| && PatternMatchesSheet(patterns[i].0, fileName, sheetName) && x in patterns[i].1
  }

  lemma AnyMatchInit(patterns: seq<ColumnPattern>, fileName: string, sheetName: string)
    requires patterns != []
    ensures AnyMatch(patterns, fileName, sheetName) <==>
      || AnyMatch(patterns[..|patterns| - 1], fileName, sheetName)
      || PatternMatchesSheet(patterns[|patterns| - 1].0, fileName, sheetName)
  {
    var init := patterns[..|patterns| - 1];
    assert forall i :: 0 <= i < |init| ==> init[i] == patterns[i];
  }

  lemma RequestedInit(patterns: seq<ColumnPattern>, fileName: string, sheetName: string, x: string)
    requires patterns != []
    ensures Requested(patterns, fileName, sheetName, x) <==>
      || Requested(patterns[..|patterns| - 1], fileName, sheetName, x)
      || (PatternMatchesSheet(patterns[|patterns| - 1].0, fileName, sheetName) && x in patterns[|patterns| - 1].1)
  {
    var init := patterns[..|patterns| - 1];
    if Requested(patterns, fileName, sheetName, x) {
      var i :| 0 <= i < |patterns| && PatternMatchesSheet(patterns[i].0, fileName, sheetName) && x in patterns[i].1;
      if i < |init| {
        assert PatternMatchesSheet(init[i].0, fileName, sheetName) && x in init[i].1;
      }
    }
    if Requested(init, fileName, sheetName, x) {
      var i :| 0 <= i < |init| && PatternMatchesSheet(init[i].0, fileName, sheetName) && x in init[i].1;
      assert init[i] == patterns[i];
    }
  }

  /** The reference has an entry exactly when it started with one or a
      pattern matches. */
  lemma {:induction false} ColumnsForPresent(start: Option<seq<string>>, patterns: seq<ColumnPattern>,
                                             fileName: string, sheetName: string, available: seq<string>)
    ensures ColumnsFor(start, patterns, fileName, sheetName, available).Some? <==>
      start.Some? || AnyMatch(patterns, fileName, sheetName)
    decreases |patterns|
  {
    if patterns != [] {
      ColumnsForPresent(start, patterns[..|patterns| - 1], fileName, sheetName, available);
      AnyMatchInit(patterns, fileName, sheetName);
    }
  }

  /** The reference entry is duplicate-free and holds the starting columns
      plus the sheet's columns that a matching pattern asks for. */
  lemma {:induction false} ColumnsForContents(start: Option<seq<string>>, patterns: seq<ColumnPattern>,
                                              fileName: string, sheetName: string, available: seq<string>)
    requires start.Some? ==> Distinct(start.value)
    ensures var r := ColumnsFor(start, patterns, fileName, sheetName, available);
      && (r.Some? ==> Distinct(r.value))
      && (r.Some? ==> forall x :: x in r.value <==>
            (start.Some? && x in start.value) || (x in available && Requested(patterns, fileName, sheetName, x)))
    decreases |patterns|
  {
    if patterns != [] {
      var init := patterns[..|patterns| - 1];
      var last := patterns[|patterns| - 1];
      ColumnsForContents(start, init, fileName, sheetName, available);
      ColumnsForPresent(start, init, fileName, sheetName, available);
      var prev := ColumnsFor(start, init, fileName, sheetName, available);
      var r := ColumnsFor(start, patterns, fileName, sheetName, available);
      if PatternMatchesSheet(last.0, fileName, sheetName) {
        var base := if prev.Some? then prev.value else [];
        assert r == Some(AddAbsent(base, last.1, available));
        forall x ensures x in r.value <==>
          (start.Some? && x in start.value) || (x in available && Requested(patterns, fileName, sheetName, x))
        {
          RequestedInit(patterns, fileName, sheetName, x);
        }
      } else {
        assert r == prev;
        forall x ensures Requested(patterns, fileName, sheetName, x) <==> Requested(init, fileName, sheetName, x) {
          RequestedInit(patterns, fileName, sheetName, x);
        }
      }
    }
  }

  lemma StepAt(sel: Selection, pattern: string, columns: seq<string>,
               fileName: string, sheetName: string, t: Table, f: string, s: string)
    ensures Lookup2(Step(sel, pattern, columns, fileName, sheetName, t), f, s) ==
      if f == fileName && s == sheetName && PatternMatchesSheet(pattern, fileName, sheetName)
      then Some(AddAbsent(SelectedFor(sel, fileName, sheetName), columns, t.columns))
      else Lookup2(sel, f, s)
  {
  }

  lemma {:induction false} MatchSheetsAt(sel: Selection, pattern: string, columns: seq<string>,
                                         fileName: string, sheets: Sheets, f: string, s: string)
    requires Valid(sheets)
    ensures Lookup2(MatchSheets(sel, pattern, columns, fileName, sheets), f, s) ==
      if f == fileName && Get(sheets, s).Some? && PatternMatchesSheet(pattern, fileName, s)
      then Some(AddAbsent(SelectedFor(sel, fileName, s), columns, Get(sheets, s).value.columns))
      else Lookup2(sel, f, s)
    decreases |sheets|
  {
    if sheets != [] {
      var init := sheets[..|sheets| - 1];
      var last := sheets[|sheets| - 1];
      assert sheets == init + [last];
      ValidInit(sheets);
      GetAppend(init, last.0, last.1, s);
      var before := MatchSheets(sel, pattern, columns, fileName, init);
      StepAt(before, pattern, columns, fileName, last.0, last.1, f, s);
      MatchSheetsAt(sel, pattern, columns, fileName, init, f, s);
      MatchSheetsAt(sel, pattern, columns, fileName, init, fileName, last.0);
    }
  }

  lemma {:induction false} MatchFilesAt(sel: Selection, pattern: string, columns: seq<string>,
                                        files: FileData, f: string, s: string)
    requires ValidFileData(files)
    ensures Lookup2(MatchFiles(sel, pattern, columns, files), f, s) ==
      if Lookup2(files, f, s).Some? && PatternMatchesSheet(pattern, f, s)
      then Some(AddAbsent(SelectedFor(sel, f, s), columns, Lookup2(files, f, s).value.columns))
      else Lookup2(sel, f, s)
    decreases |files|
  {
    if files != [] {
      var init := files[..|files| - 1];
      var last := files[|files| - 1];
      assert files == init + [last];
      ValidInit(files);
      assert ValidFileData(init) by {
        assert forall i :: 0 <= i < |init| ==> init[i] == files[i];
      }
      assert Valid(last.1);
      GetAppend(init, last.0, last.1, f);
      var before := MatchFiles(sel, pattern, columns, init);
      MatchSheetsAt(before, pattern, columns, last.0, last.1, f, s);
      MatchFilesAt(sel, pattern, columns, init, f, s);
    }
  }

  lemma {:induction false} MatchPatternsAt(sel: Selection, patterns: seq<ColumnPattern>,
                                           fd: FileData, f: string, s: string)
    requires ValidFileData(fd)
    ensures Lookup2(MatchPatterns(sel, patterns, fd), f, s) ==
      if Lookup2(fd, f, s).Some?
      then ColumnsFor(Lookup2(sel, f, s), patterns, f, s, Lookup2(fd, f, s).value.columns)
      else Lookup2(sel, f, s)
    decreases |patterns|
  {
    if patterns != [] {
      var init := patterns[..|patterns| - 1];
      var last := patterns[|patterns| - 1];
      var before := MatchPatterns(sel, init, fd);
      MatchFilesAt(before, last.0, last.1, fd, f, s);
      MatchPatternsAt(sel, init, fd, f, s);
    }
  }

  /** `match_to_new_files` per (file, sheet): the result has an entry exactly
      for the loaded sheets that some pattern matches; the entry holds no
      duplicates and exactly the sheet's columns that a matching pattern
      lists, in the order the reference definition gives. */
  lemma MatchToNewFilesSelects(patterns: seq<ColumnPattern>, fd: FileData, f: string, s: string)
    requires ValidFileData(fd)
    ensures var r := Lookup2(MatchToNewFilesSpec(patterns, fd), f, s);
      && (r.Some? <==> Lookup2(fd, f, s).Some? && AnyMatch(patterns, f, s))
      && (r.Some? ==> r == ColumnsFor(None, patterns, f, s, Lookup2(fd, f, s).value.columns))
      && (r.Some? ==> Distinct(r.value))
      && (r.Some? ==> forall x :: x in r.value <==>
            x in Lookup2(fd, f, s).value.columns && Requested(patterns, f, s, x))
  {
    MatchPatternsAt([], patterns, fd, f, s);
    if Lookup2(fd, f, s).Some? {
      ColumnsForPresent(None, patterns, f, s, Lookup2(fd, f, s).value.columns);
      ColumnsForContents(None, patterns, f, s, Lookup2(fd, f, s).value.columns);
    }
  }

  lemma StepValid(sel: Selection, pattern: string, columns: seq<string>,
                  fileName: string, sheetName: string, t: Table)
    requires ValidSelection(sel)
    ensures ValidSelection(Step(sel, pattern, columns, fileName, sheetName, t))
  {
    if PatternMatchesSheet(pattern, fileName, sheetName) {
      var fileSel := GetOr(sel, fileName, []);
      if HasKey(sel, fileName) {
        var i := HasKeyAt(sel, fileName);
        GetAt(sel, i);
      }
      assert Valid(fileSel);
      var inner := Put(fileSel, sheetName, AddAbsent(GetOr(fileSel, sheetName, []), columns, t.columns));
      PutValid(fileSel, sheetName, AddAbsent(GetOr(fileSel, sheetName, []), columns, t.columns));
      PutValid(sel, fileName, inner);
      var r := Put(sel, fileName, inner);
      forall i | 0 <= i < |r| ensures Valid(r[i].1) {
        GetAt(r, i);
        if r[i].0 != fileName {
          var j := HasKeyAt(sel, r[i].0);
          GetAt(sel, j);
        }
      }
    }
  }

  lemma {:induction false} MatchPatternsValid(sel: Selection, patterns: seq<ColumnPattern>, fd: FileData)
    requires ValidSelection(sel)
    ensures ValidSelection(MatchPatterns(sel, patterns, fd))
    decreases |patterns|
  {
    if patterns != [] {
      var last := patterns[|patterns| - 1];
      MatchPatternsValid(sel, patterns[..|patterns| - 1], fd);
      MatchFilesValid(MatchPatterns(sel, patterns[..|patterns| - 1], fd), last.0, last.1, fd);
    }
  }

  lemma {:induction false} MatchFilesValid(sel: Selection, pattern: string, columns: seq<string>, files: FileData)
    requires ValidSelection(sel)
    ensures ValidSelection(MatchFiles(sel, pattern, columns, files))
    decreases |files|
  {
    if files != [] {
      var last := files[|files| - 1];
      MatchFilesValid(sel, pattern, columns, files[..|files| - 1]);
      MatchSheetsValid(MatchFiles(sel, pattern, columns, files[..|files| - 1]), pattern, columns, last.0, last.1);
    }
  }

  lemma {:induction false} MatchSheetsValid(sel: Selection, pattern: string, columns: seq<string>,
                                            fileName: string, sheets: Sheets)
    requires ValidSelection(sel)
    ensures ValidSelection(MatchSheets(sel, pattern, columns, fileName, sheets))
    decreases |sheets|
  {
    if sheets != [] {
      var last := sheets[|sheets| - 1];
      MatchSheetsValid(sel, pattern, columns, fileName, sheets[..|sheets| - 1]);
      StepValid(MatchSheets(sel, pattern, columns, fileName, sheets[..|sheets| - 1]),
                pattern, columns, fileName, last.0, last.1);
    }
  }

  /** The result is a well-formed nested dictionary. */
  lemma MatchToNewFilesValid(patterns: seq<ColumnPattern>, fd: FileData)
    ensures ValidSelection(MatchToNewFilesSpec(patterns, fd))
  {
    MatchPatternsValid([], patterns, fd);
  }

  /** No file entry of a selection is an empty dictionary. */
  predicate NoEmptyFile(sel: Selection) {
    forall e :: e in sel ==> e.1 != []
  }

  lemma StepNoEmptyFile(sel: Selection, pattern: string, columns: seq<string>,
                        fileName: string, sheetName: string, t: Table)
    requires NoEmptyFile(sel)
    ensures NoEmptyFile(Step(sel, pattern, columns, fileName, sheetName, t))
  {
    if PatternMatchesSheet(pattern, fileName, sheetName) {
      var fileSel := GetOr(sel, fileName, []);
      var inner := Put(fileSel, sheetName, AddAbsent(GetOr(fileSel, sheetName, []), columns, t.columns));
      assert HasKey(inner, sheetName);
      PutMembers(sel, fileName, inner);
    }
  }

  lemma {:induction false} MatchSheetsNoEmptyFile(sel: Selection, pattern: string, columns: seq<string>,
                                                  fileName: string, sheets: Sheets)
    requires NoEmptyFile(sel)
    ensures NoEmptyFile(MatchSheets(sel, pattern, columns, fileName, sheets))
    decreases |sheets|
  {
    if sheets != [] {
      var last := sheets[|sheets| - 1];
      MatchSheetsNoEmptyFile(sel, pattern, columns, fileName, sheets[..|sheets| - 1]);
      StepNoEmptyFile(MatchSheets(sel, pattern, columns, fileName, sheets[..|sheets| - 1]),
                      pattern, columns, fileName, last.0, last.1);
    }
  }

  lemma {:induction false} MatchFilesNoEmptyFile(sel: Selection, pattern: string, columns: seq<string>, files: FileData)
    requires NoEmptyFile(sel)
    ensures NoEmptyFile(MatchFiles(sel, pattern, columns, files))
    decreases |files|
  {
    if files != [] {
      var last := files[|files| - 1];
      MatchFilesNoEmptyFile(sel, pattern, columns, files[..|files| - 1]);
      MatchSheetsNoEmptyFile(MatchFiles(sel, pattern, columns, files[..|files| - 1]), pattern, columns, last.0, last.1);
    }
  }

  lemma {:induction false} MatchPatternsNoEmptyFile(sel: Selection, patterns: seq<ColumnPattern>, fd: FileData)
    requires NoEmptyFile(sel)
    ensures NoEmptyFile(MatchPatterns(sel, patterns, fd))
    decreases |patterns|
  {
    if patterns != [] {
      var last := patterns[|patterns| - 1];
      MatchPatternsNoEmptyFile(sel, patterns[..|patterns| - 1], fd);
      MatchFilesNoEmptyFile(MatchPatterns(sel, patterns[..|patterns| - 1], fd), last.0, last.1, fd);
    }
  }

  /** The result is empty exactly when no pattern matches any loaded sheet
      (then the front-ends report that nothing matched). */
  lemma MatchToNewFilesEmpty(patterns: seq<ColumnPattern>, fd: FileData)
    requires ValidFileData(fd)
    ensures MatchToNewFilesSpec(patterns, fd) == [] <==>
      forall f, s :: Lookup2(fd, f, s).Some? ==> !AnyMatch(patterns, f, s)
  {
    var r := MatchToNewFilesSpec(patterns, fd);
    if r != [] {
      MatchPatternsNoEmptyFile([], patterns, fd);
      MatchToNewFilesValid(patterns, fd);
      assert r[0] in r;
      var f := r[0].0;
      var inner := r[0].1;
      GetAt(r, 0);
      GetAt(inner, 0);
      var s := inner[0].0;
      assert Lookup2(r, f, s).Some?;
      MatchToNewFilesSelects(patterns, fd, f, s);
    } else {
      forall f, s | Lookup2(fd, f, s).Some? ensures !AnyMatch(patterns, f, s) {
        MatchToNewFilesSelects(patterns, fd, f, s);
      }
    }
  }

  // ---------------------------------------------------------------------
  // Profiles

  /** What `to_dict` produces and `from_dict` reads: each key may be missing
      from a stored dictionary. */
  datatype StoredProfile = StoredProfile(
    name: Option<string>,
    columnPatterns: Option<seq<ColumnPattern>>,
    watchFolders: Option<seq<string>>,
    outputFolder: Option<string>,
    autoProcess: Option<bool>)

  /** The fields of a profile as plain values. */
  datatype ProfileFields = ProfileFields(
    name: string,
    columnPatterns: seq<ColumnPattern>,
    watchFolders: seq<string>,
    outputFolder: string,
    autoProcess: bool)

  function OrElse<T>(o: Option<T>, default: T): T {
    if o.Some? then o.value else default
  }

  /** The fields `from_dict` sets, with its defaults for missing keys. */
  function FromStored(data: StoredProfile): (r: ProfileFields)
    ensures data.name.None? ==> r.name == "Unnamed Profile"
    ensures data.columnPatterns.None? ==> r.columnPatterns == []
    ensures data.watchFolders.None? ==> r.watchFolders == []
    ensures data.outputFolder.None? ==> r.outputFolder == ""
    ensures data.autoProcess.None? ==> !r.autoProcess
  {
    ProfileFields(
      OrElse(data.name, "Unnamed Profile"),
      OrElse(data.columnPatterns, []),
      OrElse(data.watchFolders, []),
      OrElse(data.outputFolder, ""),
      OrElse(data.autoProcess, false))
  }

  /** The first entry for a pattern string, as the `for` loop finds it. */
  function PatternIndex(patterns: seq<ColumnPattern>, p: string): (r: Option<nat>)
    ensures r.None? ==> forall j :: 0 <= j < |patterns| ==> patterns[j].0 != p
    ensures r.Some? ==> r.value < |patterns| && patterns[r.value].0 == p
    ensures r.Some? ==> forall j :: 0 <= j < r.value ==> patterns[j].0 != p
  {
    if patterns == [] then None
    else if patterns[0].0 == p then Some(0)
    else
      var rest := PatternIndex(patterns[1..], p);
      if rest.Some? then Some(rest.value + 1) else None
  }

  /** The effect of `add_column_pattern(p, columns)`: a new pattern string is
      appended; an existing one is taken out and put back last with the union
      of both column lists, without duplicates (in an unspecified order). */
  predicate PatternAdded(before: seq<ColumnPattern>, after: seq<ColumnPattern>, p: string, columns: seq<string>) {
    match PatternIndex(before, p)
    case None => after == before + [(p, columns)]
    case Some(i) =>
      && |after| == |before|
      && after[..|after| - 1] == before[..i] + before[i + 1..]
      && after[|after| - 1].0 == p
      && Distinct(after[|after| - 1].1)
      && Elems(after[|after| - 1].1) == Elems(before[i].1) + Elems(columns)
  }

  /** Adding a pattern never makes a pattern string occur twice. */
  lemma PatternAddedValid(before: seq<ColumnPattern>, after: seq<ColumnPattern>, p: string, columns: seq<string>)
    requires Valid(before)
    requires PatternAdded(before, after, p, columns)
    ensures Valid(after)
  {
    match PatternIndex(before, p)
    case None =>
      KeysConcat(before, [(p, columns)]);
      assert Keys([(p, columns)]) == [p];
      DistinctAppend(Keys(before), p);
    case Some(i) =>
      var mid := before[..i] + before[i + 1..];
      var last := after[|after| - 1];
      assert after == mid + [last];
      assert Distinct(Keys(mid)) && p !in Keys(mid) by {
        KeysRemoveAt(before, i);
        RemoveAtFacts(Keys(before), i);
      }
      KeysConcat(mid, [last]);
      assert Keys([last]) == [p];
      DistinctAppend(Keys(mid), p);
  }

  class ExtractionProfile {
    var name: string
    var columnPatterns: seq<ColumnPattern>
    var watchFolders: seq<string>
    var outputFolder: string
    var autoProcess: bool

    constructor (name: string)
      ensures Fields() == ProfileFields(name, [], [], "", false)
    {
      this.name := name;
      columnPatterns := [];
      watchFolders := [];
      outputFolder := "";
      autoProcess := false;
    }

    /** `from_dict`: missing keys take their defaults. */
    constructor FromDict(data: StoredProfile)
      ensures Fields() == FromStored(data)
    {
      name := OrElse(data.name, "Unnamed Profile");
      columnPatterns := OrElse(data.columnPatterns, []);
      watchFolders := OrElse(data.watchFolders, []);
      outputFolder := OrElse(data.outputFolder, "");
      autoProcess := OrElse(data.autoProcess, false);
    }

    function Fields(): ProfileFields
      reads this
    {
      ProfileFields(name, columnPatterns, watchFolders, outputFolder, autoProcess)
    }

    /** `to_dict`: every key is written, so reading it back restores the
        profile. */
    function ToDict(): (d: StoredProfile)
      reads this
      ensures d.name.Some? && d.columnPatterns.Some? && d.watchFolders.Some?
      ensures d.outputFolder.Some? && d.autoProcess.Some?
      ensures FromStored(d) == Fields()
    {
      StoredProfile(Some(name), Some(columnPatterns), Some(watchFolders), Some(outputFolder), Some(autoProcess))
    }

    method AddColumnPattern(sheetPattern: string, columns: seq<string>)
      modifies this
      ensures PatternAdded(old(columnPatterns), columnPatterns, sheetPattern, columns)
      ensures name == old(name) && watchFolders == old(watchFolders)
      ensures outputFolder == old(outputFolder) && autoProcess == old(autoProcess)
    {
      var i := 0;
      while i < |columnPatterns| && columnPatterns[i].0 != sheetPattern
        invariant 0 <= i <= |columnPatterns|
        invariant forall j :: 0 <= j < i ==> columnPatterns[j].0 != sheetPattern
      {
        i := i + 1;
      }
      if i < |columnPatterns| {
        var cols := columnPatterns[i].1;
        var uniqueCols := KeepFirst(cols + columns);
        assert Elems(uniqueCols) == Elems(cols) + Elems(columns);
        // Every earlier entry has another pattern string, so the entry that
        // `remove` finds first is the one at i.
        columnPatterns := columnPatterns[..i] + columnPatterns[i + 1..];
        columnPatterns := columnPatterns + [(sheetPattern, uniqueCols)];
        assert PatternIndex(old(columnPatterns), sheetPattern) == Some(i);
      } else {
        columnPatterns := columnPatterns + [(sheetPattern, columns)];
      }
    }

    method AddFileSelection(fileName: string, sheetName: string, columns: seq<string>)
      modifies this
      ensures PatternAdded(old(columnPatterns), columnPatterns, FilePattern(fileName, sheetName), columns)
      ensures name == old(name) && watchFolders == old(watchFolders)
      ensures outputFolder == old(outputFolder) && autoProcess == old(autoProcess)
    {
      AddColumnPattern(FilePattern(fileName, sheetName), columns);
    }

    /** Empty and already-watched folders are ignored, so the list never
        gains a duplicate. */
    method AddWatchFolder(folderPath: string)
      modifies this
      ensures watchFolders == if folderPath != "" && folderPath !in old(watchFolders)
        then old(watchFolders) + [folderPath] else old(watchFolders)
      ensures Distinct(old(watchFolders)) ==> Distinct(watchFolders)
      ensures name == old(name) && columnPatterns == old(columnPatterns)
      ensures outputFolder == old(outputFolder) && autoProcess == old(autoProcess)
    {
      if folderPath != "" && folderPath !in watchFolders {
        watchFolders := watchFolders + [folderPath];
      }
    }

    method RemoveWatchFolder(folderPath: string)
      modifies this
      ensures watchFolders == if folderPath in old(watchFolders)
        then RemoveFirst(old(watchFolders), folderPath) else old(watchFolders)
      ensures Distinct(old(watchFolders)) ==> folderPath !in watchFolders
      ensures name == old(name) && columnPatterns == old(columnPatterns)
      ensures outputFolder == old(outputFolder) && autoProcess == old(autoProcess)
    {
      if folderPath in watchFolders {
        watchFolders := RemoveFirst(watchFolders, folderPath);
      }
    }

    /** The triple loop of `match_to_new_files`, building the selection in
        place; the two inner loops are MatchFile and MatchFileSheets. */
    method MatchToNewFiles(fileData: FileData) returns (selections: Selection)
      ensures selections == MatchToNewFilesSpec(columnPatterns, fileData)
    {
      selections := [];
      var i := 0;
      while i < |columnPatterns|
        invariant 0 <= i <= |columnPatterns|
        invariant selections == MatchPatterns([], columnPatterns[..i], fileData)
      {
        assert columnPatterns[..i + 1][..i] == columnPatterns[..i];
        selections := MatchFile(selections, columnPatterns[i].0, columnPatterns[i].1, fileData);
        i := i + 1;
      }
      assert columnPatterns[..i] == columnPatterns;
    }

    /** The file loop for one pattern. */
    method MatchFile(sel: Selection, pattern: string, columns: seq<string>, fileData: FileData)
      returns (selections: Selection)
      ensures selections == MatchFiles(sel, pattern, columns, fileData)
    {
      selections := sel;
      var j := 0;
      while j < |fileData|
        invariant 0 <= j <= |fileData|
        invariant selections == MatchFiles(sel, pattern, columns, fileData[..j])
      {
        assert fileData[..j + 1][..j] == fileData[..j];
        selections := MatchFileSheets(selections, pattern, columns, fileData[j].0, fileData[j].1);
        j := j + 1;
      }
      assert fileData[..j] == fileData;
    }

    /** The sheet loop for one pattern and one file. */
    method MatchFileSheets(sel: Selection, pattern: string, columns: seq<string>, fileName: string, sheets: Sheets)
      returns (selections: Selection)
      ensures selections == MatchSheets(sel, pattern, columns, fileName, sheets)
    {
      selections := sel;
      var k := 0;
      while k < |sheets|
        invariant 0 <= k <= |sheets|
        invariant selections == MatchSheets(sel, pattern, columns, fileName, sheets[..k])
      {
        assert sheets[..k + 1][..k] == sheets[..k];
        var sheetName := sheets[k].0;
        if PatternMatchesSheet(pattern, fileName, sheetName) {
          selections := VisitSheet(selections, columns, fileName, sheetName, sheets[k].1);
        }
        k := k + 1;
      }
      assert sheets[..k] == sheets;
    }

    /** The body of the match: make room for the (file, sheet) entry, then
        append the available columns one by one. */
    method VisitSheet(sel: Selection, columns: seq<string>, fileName: string, sheetName: string, df: Table)
      returns (r: Selection)
      ensures r == Put(sel, fileName, Put(GetOr(sel, fileName, []), sheetName,
        AddAbsent(SelectedFor(sel, fileName, sheetName), columns, df.columns)))
    {
      r := sel;
      if !HasKey(r, fileName) {
        r := Put(r, fileName, []);
      }
      var fileSel := Get(r, fileName).value;
      if !HasKey(fileSel, sheetName) {
        fileSel := Put(fileSel, sheetName, []);
        r := Put(r, fileName, fileSel);
      }
      var current := Get(fileSel, sheetName).value;
      assert current == SelectedFor(sel, fileName, sheetName);
      current := AppendAvailable(current, columns, df.columns);
      PutTwice(sel, r, fileName, GetOr(sel, fileName, []), fileSel, sheetName, current);
      r := Put(r, fileName, Put(fileSel, sheetName, current));
    }

    /** The column loop: each column of the pattern that the sheet has and
        the list lacks is appended. */
    method AppendAvailable(start: seq<string>, columns: seq<string>, available: seq<string>)
      returns (current: seq<string>)
      ensures current == AddAbsent(start, columns, available)
    {
      current := start;
      var c := 0;
      while c < |columns|
        invariant 0 <= c <= |columns|
        invariant current == AddAbsent(start, columns[..c], available)
      {
        AddAbsentStep(start, columns, c, available);
        if columns[c] in available && columns[c] !in current {
          current := current + [columns[c]];
        }
        c := c + 1;
      }
      assert columns[..c] == columns;
    }
  }

  /** Writing a key twice keeps only the second value. */
  lemma PutTwice(sel: Selection, r: Selection, fileName: string, old0: Dict<seq<string>>,
                 fileSel: Dict<seq<string>>, sheetName: string, v: seq<string>)
    requires old0 == GetOr(sel, fileName, [])
    requires r == sel || r == Put(sel, fileName, []) || r == Put(sel, fileName, fileSel)
      || r == Put(Put(sel, fileName, []), fileName, fileSel)
    requires fileSel == old0 || fileSel == Put(old0, sheetName, [])
    ensures Put(r, fileName, Put(fileSel, sheetName, v)) == Put(sel, fileName, Put(old0, sheetName, v))
  {
    PutPut(sel, fileName, [], Put(fileSel, sheetName, v));
    PutPut(sel, fileName, fileSel, Put(fileSel, sheetName, v));
    PutPut(Put(sel, fileName, []), fileName, fileSel, Put(fileSel, sheetName, v));
    PutPut(old0, sheetName, [], v);
  }

  class ProfileManager {
    var profiles: map<string, ExtractionProfile>
    var defaultProfileName: string

    /** The default name, when set, belongs to a stored profile. */
    predicate DefaultValid()
      reads this
    {
      defaultProfileName == "" || defaultProfileName in profiles
    }

    /** A manager whose profile directory holds no profiles yet. */
    constructor ()
      ensures profiles == map[] && defaultProfileName == ""
      ensures DefaultValid()
    {
      profiles := map[];
      defaultProfileName := "";
    }

    /** `save_profile`: an empty name becomes "Unnamed Profile", and the
        profile is stored under its (possibly new) name. */
    method SaveProfile(profile: ExtractionProfile) returns (ok: bool)
      modifies this, profile
      ensures ok
      ensures profile.name == if old(profile.name) == "" then "Unnamed Profile" else old(profile.name)
      ensures profile.columnPatterns == old(profile.columnPatterns) && profile.watchFolders == old(profile.watchFolders)
      ensures profile.outputFolder == old(profile.outputFolder) && profile.autoProcess == old(profile.autoProcess)
      ensures profiles == old(profiles)[profile.name := profile]
      ensures defaultProfileName == old(defaultProfileName)
      ensures old(DefaultValid()) ==> DefaultValid()
    {
      if profile.name == "" {
        profile.name := "Unnamed Profile";
      }
      profiles := profiles[profile.name := profile];
      ok := true;
    }

    /** `load_profile` once the file is read: the profile is stored under the
        name it carries. */
    method LoadProfile(data: StoredProfile) returns (profile: ExtractionProfile)
      modifies this
      ensures fresh(profile)
      ensures profile.Fields() == FromStored(data)
      ensures profiles == old(profiles)[profile.name := profile]
      ensures defaultProfileName == old(defaultProfileName)
      ensures old(DefaultValid()) ==> DefaultValid()
    {
      profile := new ExtractionProfile.FromDict(data);
      profiles := profiles[profile.name := profile];
    }

    /** `create_profile`: the requested name, or "name (n)" for the least free
        n; the new profile is stored under that name and saved. */
    method CreateProfile(name: string) returns (profile: ExtractionProfile)
      modifies this
      ensures fresh(profile)
      ensures var chosen := FreeName(name, name + " (", ")", old(profiles).Keys);
        && chosen !in old(profiles)
        && profile.name == (if chosen == "" then "Unnamed Profile" else chosen)
        && profiles == old(profiles)[chosen := profile][profile.name := profile]
      ensures profile.columnPatterns == [] && profile.watchFolders == []
      ensures profile.outputFolder == "" && !profile.autoProcess
      ensures defaultProfileName == old(defaultProfileName)
      ensures old(DefaultValid()) ==> DefaultValid()
    {
      var chosen := ChooseFreeName(name, name + " (", ")", profiles.Keys);
      profile := new ExtractionProfile(chosen);
      profiles := profiles[chosen := profile];
      var _ := SaveProfile(profile);
    }

    /** `delete_profile`: fails for an unknown name; clears the default when
        the default is deleted. */
    method DeleteProfile(name: string) returns (ok: bool)
      modifies this
      ensures ok <==> name in old(profiles)
      ensures profiles == if ok then old(profiles) - {name} else old(profiles)
      ensures defaultProfileName ==
        if ok && old(defaultProfileName) == name then "" else old(defaultProfileName)
      ensures old(DefaultValid()) ==> DefaultValid()
    {
      if name !in profiles {
        return false;
      }
      profiles := profiles - {name};
      if defaultProfileName == name {
        defaultProfileName := "";
      }
      ok := true;
    }

    /** `rename_profile`: fails, changing nothing, when the old name is
        unknown or the new one is taken. Otherwise the profile is renamed,
        saved under its new name, its old key is dropped, and the default
        follows the rename. */
    method RenameProfile(oldName: string, newName: string) returns (ok: bool)
      modifies this, if oldName in profiles then {profiles[oldName]} else {}
      ensures ok <==> oldName in old(profiles) && newName !in old(profiles)
      ensures !ok ==> profiles == old(profiles) && defaultProfileName == old(defaultProfileName)
      ensures ok ==>
        var profile := old(profiles)[oldName];
        var saved := if newName == "" then "Unnamed Profile" else newName;
        && profile.name == saved
        && profiles == (old(profiles)[saved := profile] - {oldName})[newName := profile]
        && defaultProfileName == (if old(defaultProfileName) == oldName then newName else old(defaultProfileName))
      ensures ok && newName != "" ==>
        oldName !in profiles && newName in profiles && profiles[newName].name == newName
      ensures ok ==>
        var profile := old(profiles)[oldName];
        && profile.columnPatterns == old(profile.columnPatterns)
        && profile.watchFolders == old(profile.watchFolders)
        && profile.outputFolder == old(profile.outputFolder)
        && profile.autoProcess == old(profile.autoProcess)
      ensures !ok && oldName in old(profiles) ==> unchanged(old(profiles)[oldName])
      ensures old(DefaultValid()) ==> DefaultValid()
    {
      if oldName !in profiles || newName in profiles {
        return false;
      }
      var profile := profiles[oldName];
      profile.name := newName;
      var _ := SaveProfile(profile);
      profiles := profiles - {oldName};
      profiles := profiles[newName := profile];
      if defaultProfileName == oldName {
        defaultProfileName := newName;
      }
      ok := true;
    }

    /** `set_default_profile`: only a stored name or "" is accepted. */
    method SetDefaultProfile(name: string) returns (ok: bool)
      modifies this
      ensures ok <==> name in old(profiles) || name == ""
      ensures defaultProfileName == if ok then name else old(defaultProfileName)
      ensures profiles == old(profiles)
      ensures old(DefaultValid()) ==> DefaultValid()
    {
      if name !in profiles && name != "" {
        return false;
      }
      defaultProfileName := name;
      ok := true;
    }

    /** `get_default_profile`: the default profile, when one is set and
        stored. */
    function GetDefaultProfile(): (r: Option<ExtractionProfile>)
      reads this
      ensures r.Some? <==> defaultProfileName != "" && defaultProfileName in profiles
      ensures r.Some? ==> r.value == profiles[defaultProfileName]
      ensures DefaultValid() && defaultProfileName != "" ==> r.Some?
    {
      if defaultProfileName == "" || defaultProfileName !in profiles then None
      else Some(profiles[defaultProfileName])
    }
  }
}
