/**
 * The Qt front-end (excel_extractor_qt.py): how its reader names the files it
 * loads, the list of archive files it hands to the reader, the column names
 * its table view shows, how its checkboxes edit the selection (pruning
 * emptied entries), and applying a saved profile.
 */
module QtExtractor {
  import opened PyStrings
  import opened OrderedDicts
  import opened Tables
  import opened UniqueNames
  import opened PyLists
  import opened Selections
  import opened FileProcessor
  import opened Profiles

  // ---------------------------------------------------------------------
  // File-name sanitisation in read_excel_files

  /** The characters the reader replaces by '_', in the order it replaces them. */
  const SanitizedChars: seq<char> := [' ', '-', '(', ')', '[', ']', '{', '}', '&', '+', '=']

  /** The sanitised name, character by character. */
  function SanitizedName(raw: string): (r: string)
    ensures |r| == |raw|
    ensures forall i :: 0 <= i < |r| ==> r[i] !in SanitizedChars
    ensures forall i :: 0 <= i < |r| ==> (raw[i] in SanitizedChars <==> r[i] != raw[i])
  {
    seq(|raw|, i requires 0 <= i < |raw| => if raw[i] in SanitizedChars then '_' else raw[i])
  }

  /** A sanitised name is left alone by a second sanitisation. */
  lemma SanitizeIdempotent(raw: string)
    ensures SanitizedName(SanitizedName(raw)) == SanitizedName(raw)
  {
  }

  /** The loop of `file_name.replace(char, '_')` over the eleven characters. */
  method SanitizeFileName(raw: string) returns (name: string)
    ensures name == SanitizedName(raw)
  {
    name := raw;
    for k := 0 to |SanitizedChars|
      invariant |name| == |raw|
      invariant forall i :: 0 <= i < |raw| ==>
        name[i] == if raw[i] in SanitizedChars[..k] then '_' else raw[i]
    {
      var c := SanitizedChars[k];
      ReplaceCharByChar(name, c, '_');
      name := Replace(name, [c], "_");
      assert SanitizedChars[..k + 1] == SanitizedChars[..k] + [c];
    }
    assert SanitizedChars[..|SanitizedChars|] == SanitizedChars;
  }

  // ---------------------------------------------------------------------
  // read_excel_files

  /** What opening one path gives: the workbook's sheets in order, each read
      or failed, or the failure to open it together with what the xlrd
      fallback read (None when it failed too). */
  datatype QtWorkbook =
    | QtOpened(sheets: seq<(string, Option<Table>)>)
    | QtOpenFailed(xlrd: Option<Table>)

  /** The sheets of an opened workbook that could be read. */
  function QtSheets(sheets: seq<(string, Option<Table>)>): Sheets
    decreases |sheets|
  {
    if sheets == [] then []
    else
      var init := QtSheets(sheets[..|sheets| - 1]);
      var (name, t) := sheets[|sheets| - 1];
      if t.Some? then Put(init, name, t.value) else init
  }

  /** The key a new file is stored under: its sanitised name, or
      `name_n` for the least n >= 1 that is not a key yet. */
  function FreshKey(name: string, fd: FileData): string {
    FreeName(name, name + "_", "", Elems(Keys(fd)))
  }

  lemma FreshKeyFresh(name: string, fd: FileData)
    ensures !HasKey(fd, FreshKey(name, fd))
    ensures !HasKey(fd, name) ==> FreshKey(name, fd) == name
    ensures HasKey(fd, name) ==> exists n: nat {:trigger Candidate(name + "_", n, "")} ::
      n >= 1 && FreshKey(name, fd) == Candidate(name + "_", n, "")
  {
  }

  /** One path of the reading loop as the code is written: an unreadable
      workbook that the xlrd fallback reads is stored under its sanitised
      name without the uniqueness loop. */
  function QtReadOneAsWritten(fd: FileData, path: string, onDisk: bool, wb: QtWorkbook): FileData {
    if !onDisk then fd
    else
      var name := SanitizedName(Basename(path));
      match wb
      case QtOpenFailed(x) =>
        if EndsWith(Lower(path), ".xls") && x.Some? then Put(fd, name, [("Sheet1", x.value)]) else fd
      case QtOpened(sheets) => fd + [(FreshKey(name, fd), QtSheets(sheets))]
  }

  /** The same step with the uniqueness loop applied to both branches. */
  function QtReadOne(fd: FileData, path: string, onDisk: bool, wb: QtWorkbook): FileData {
    if !onDisk then fd
    else
      var name := SanitizedName(Basename(path));
      match wb
      case QtOpenFailed(x) =>
        if EndsWith(Lower(path), ".xls") && x.Some? then fd + [(FreshKey(name, fd), [("Sheet1", x.value)])] else fd
      case QtOpened(sheets) => fd + [(FreshKey(name, fd), QtSheets(sheets))]
  }

  function QtReadFilesAsWritten(paths: seq<string>, onDisk: string -> bool, open: string -> QtWorkbook): FileData
    decreases |paths|
  {
    if paths == [] then []
    else
      var p := paths[|paths| - 1];
      QtReadOneAsWritten(QtReadFilesAsWritten(paths[..|paths| - 1], onDisk, open), p, onDisk(p), open(p))
  }

  function QtReadFiles(paths: seq<string>, onDisk: string -> bool, open: string -> QtWorkbook): FileData
    decreases |paths|
  {
    if paths == [] then []
    else
      var p := paths[|paths| - 1];
      QtReadOne(QtReadFiles(paths[..|paths| - 1], onDisk, open), p, onDisk(p), open(p))
  }

  /** Appending under a fresh key keeps the keys distinct. */
  lemma AppendFreshValid(fd: FileData, name: string, sheets: Sheets)
    requires Valid(fd)
    ensures Valid(fd + [(FreshKey(name, fd), sheets)])
  {
    FreshKeyFresh(name, fd);
    KeysConcat(fd, [(FreshKey(name, fd), sheets)]);
    DistinctAppend(Keys(fd), FreshKey(name, fd));
  }

  /** With the uniqueness loop on both branches, a step never touches the
      files already read: it appends at most one file, under a new key. */
  lemma QtReadOneKeeps(fd: FileData, path: string, onDisk: bool, wb: QtWorkbook)
    ensures var r := QtReadOne(fd, path, onDisk, wb);
      && fd <= r && |r| <= |fd| + 1
      && (|r| == |fd| + 1 ==> !HasKey(fd, r[|fd|].0))
      && (Valid(fd) ==> Valid(r))
  {
    var name := SanitizedName(Basename(path));
    var k := FreshKey(name, fd);
    assert !HasKey(fd, k) by {
      FreshKeyFresh(name, fd);
    }
    if onDisk {
      match wb
      case QtOpenFailed(x) =>
        if EndsWith(Lower(path), ".xls") && x.Some? {
          AppendAbsent(fd, k, [("Sheet1", x.value)]);
        }
      case QtOpened(sheets) =>
        AppendAbsent(fd, k, QtSheets(sheets));
    }
  }

  /** Appending an entry under a key that is not there yet. */
  lemma AppendAbsent(fd: FileData, k: string, sheets: Sheets)
    requires !HasKey(fd, k)
    ensures var r := fd + [(k, sheets)];
      && fd <= r && |r| == |fd| + 1
      && !HasKey(fd, r[|fd|].0)
      && (Valid(fd) ==> Valid(r))
  {
    KeysConcat(fd, [(k, sheets)]);
    if Valid(fd) {
      DistinctAppend(Keys(fd), k);
    }
  }

  /** Every file read earlier is still there, unchanged, at the end. */
  lemma {:induction false} QtReadFilesKeeps(paths: seq<string>, onDisk: string -> bool, open: string -> QtWorkbook, k: nat)
    requires k <= |paths|
    ensures QtReadFiles(paths[..k], onDisk, open) <= QtReadFiles(paths, onDisk, open)
    ensures Valid(QtReadFiles(paths, onDisk, open))
    ensures |QtReadFiles(paths, onDisk, open)| <= |paths|
    decreases |paths|
  {
    if paths != [] {
      var init := paths[..|paths| - 1];
      var p := paths[|paths| - 1];
      if k == |paths| {
        assert paths[..k] == paths;
        QtReadFilesKeeps(init, onDisk, open, |init|);
      } else {
        assert init[..k] == paths[..k];
        QtReadFilesKeeps(init, onDisk, open, k);
      }
      QtReadOneKeeps(QtReadFiles(init, onDisk, open), p, onDisk(p), open(p));
    }
  }

  /** As written, the fallback branch stores its one sheet under a name that
      may already be taken, and that file's sheets are lost. */
  lemma QtFallbackOverwrites(fd: FileData, path: string, t: Table)
    requires HasKey(fd, SanitizedName(Basename(path)))
    requires EndsWith(Lower(path), ".xls")
    ensures var r := QtReadOneAsWritten(fd, path, true, QtOpenFailed(Some(t)));
      && Keys(r) == Keys(fd)
      && Get(r, SanitizedName(Basename(path))) == Some([("Sheet1", t)])
  {
  }

  /** The keys stay distinct as written too. */
  lemma {:induction false} QtReadFilesAsWrittenValid(paths: seq<string>, onDisk: string -> bool, open: string -> QtWorkbook)
    ensures Valid(QtReadFilesAsWritten(paths, onDisk, open))
    decreases |paths|
  {
    if paths != [] {
      var init := paths[..|paths| - 1];
      var p := paths[|paths| - 1];
      QtReadFilesAsWrittenValid(init, onDisk, open);
      var fd := QtReadFilesAsWritten(init, onDisk, open);
      var name := SanitizedName(Basename(p));
      if onDisk(p) {
        match open(p)
        case QtOpenFailed(x) =>
          if EndsWith(Lower(p), ".xls") && x.Some? {
            PutValid(fd, name, [("Sheet1", x.value)]);
          }
        case QtOpened(sheets) =>
          AppendFreshValid(fd, name, QtSheets(sheets));
      }
    }
  }

  /** The reading loop, with `onDisk(path)` for `os.path.exists` and
      `open(path)` for what pandas and xlrd make of the file. */
  method ReadExcelFiles(filePaths: seq<string>, onDisk: string -> bool, open: string -> QtWorkbook)
    returns (fileData: FileData)
    ensures fileData == QtReadFilesAsWritten(filePaths, onDisk, open)
  {
    fileData := [];
    for k := 0 to |filePaths|
      invariant fileData == QtReadFilesAsWritten(filePaths[..k], onDisk, open)
    {
      var path := filePaths[k];
      assert filePaths[..k + 1][..k] == filePaths[..k];
      if !onDisk(path) {
        continue;
      }
      var fileName := SanitizeFileName(Basename(path));
      var wb := open(path);
      if wb.QtOpenFailed? {
        if EndsWith(Lower(path), ".xls") && wb.xlrd.Some? {
          fileData := Put(fileData, fileName, [("Sheet1", wb.xlrd.value)]);
        }
        continue;
      }
      var taken := Elems(Keys(fileData));
      if fileName in taken {
        fileName := ChooseFreeName(fileName, fileName + "_", "", taken);
      }
      assert fileName == FreshKey(SanitizedName(Basename(path)), fileData);
      FreshKeyFresh(SanitizedName(Basename(path)), fileData);
      fileData := StoreSheets(fileData, fileName, wb.sheets);
    }
    assert filePaths[..|filePaths|] == filePaths;
  }

  /** `file_data[file_name] = {}`, then one assignment per sheet read. */
  method StoreSheets(fd: FileData, fileName: string, sheets: seq<(string, Option<Table>)>)
    returns (fileData: FileData)
    requires !HasKey(fd, fileName)
    ensures fileData == fd + [(fileName, QtSheets(sheets))]
  {
    fileData := fd + [(fileName, [])];
    for j := 0 to |sheets|
      invariant fileData == fd + [(fileName, QtSheets(sheets[..j]))]
    {
      assert sheets[..j + 1][..j] == sheets[..j];
      var sheetName := sheets[j].0;
      var df := sheets[j].1;
      if df.Some? {
        PutLast(fd, fileName, QtSheets(sheets[..j]), Put(QtSheets(sheets[..j]), sheetName, df.value));
        fileData := Put(fileData, fileName, Put(GetOr(fileData, fileName, []), sheetName, df.value));
      }
    }
    assert sheets[..|sheets|] == sheets;
  }

  // ---------------------------------------------------------------------
  // End of extract_zip_file: unique paths, sorted

  /** The first-occurrence filter with a `seen` set, then `sort()`. */
  method UniqueSortedPaths(excelFiles: seq<string>) returns (uniqueFiles: seq<string>)
    ensures uniqueFiles == SortStrings(KeepFirst(excelFiles))
    ensures Sorted(uniqueFiles) && Distinct(uniqueFiles)
    ensures forall p :: p in uniqueFiles <==> p in excelFiles
  {
    var unique: seq<string> := [];
    var seen: set<string> := {};
    for i := 0 to |excelFiles|
      invariant unique == KeepFirst(excelFiles[..i])
      invariant seen == Elems(unique)
    {
      var p := excelFiles[i];
      assert excelFiles[..i + 1][..i] == excelFiles[..i];
      if p !in seen {
        unique := unique + [p];
        seen := seen + {p};
      }
    }
    assert excelFiles[..|excelFiles|] == excelFiles;
    uniqueFiles := SortStrings(unique);
    SortedDistinct(unique);
    assert forall p :: p in uniqueFiles <==> p in multiset(uniqueFiles);
    assert forall p :: p in unique <==> p in multiset(unique);
  }

  // ---------------------------------------------------------------------
  // PandasTableModel._process_dataframe

  /** A frame as pandas holds it: column labels (None for a missing label)
      and rows. */
  datatype Frame = Frame(labels: seq<Option<Cell>>, rows: seq<seq<Option<Cell>>>)

  function MissingLabelName(i: nat): string {
    "Column_" + NatToString(i)
  }

  /** `str(col)`, or `Column_i` for a missing label. */
  function DisplayName(heading: Option<Cell>, i: nat): string {
    if heading.None? then MissingLabelName(i) else CellText(heading.value)
  }

  function DisplayColumns(labels: seq<Option<Cell>>): (names: seq<string>)
    ensures |names| == |labels|
    ensures forall i :: 0 <= i < |labels| ==> names[i] == DisplayName(labels[i], i)
  {
    seq(|labels|, i requires 0 <= i < |labels| => DisplayName(labels[i], i))
  }

  /** What the table view displays: a one-cell notice for an empty frame,
      otherwise the rows under one text name per column. */
  function ProcessDataframe(f: Frame): (t: Table)
    ensures |f.labels| == 0 || |f.rows| == 0 ==>
      t == Table(["No Data"], [[Some(Text("Empty sheet - no data to display"))]])
    ensures |f.labels| > 0 && |f.rows| > 0 ==> t.rows == f.rows && |t.columns| == |f.labels|
  {
    if |f.labels| == 0 || |f.rows| == 0 then
      Table(["No Data"], [[Some(Text("Empty sheet - no data to display"))]])
    else Table(DisplayColumns(f.labels), f.rows)
  }

  /** The Qt reader asks pandas for `header=None`, whose labels are the
      numbers 0, 1, ...: they display as their decimal text, all distinct. */
  lemma HeaderlessColumnsDistinct(n: nat)
    ensures var names := DisplayColumns(seq(n, i => Some(Number(i))));
      && (forall i :: 0 <= i < n ==> names[i] == NatToString(i))
      && Distinct(names)
  {
    var names := DisplayColumns(seq(n, i => Some(Number(i))));
    forall i, j | 0 <= i < j < n ensures names[i] != names[j] {
      if names[i] == names[j] {
        NatToStringInjective(i, j);
      }
    }
  }

  /** Names made up for missing labels never clash with each other. */
  lemma MissingLabelNamesDistinct(i: nat, j: nat)
    requires MissingLabelName(i) == MissingLabelName(j)
    ensures i == j
  {
    var a, b := MissingLabelName(i), MissingLabelName(j);
    assert NatToString(i) == a[7..];
    assert NatToString(j) == b[7..];
    NatToStringInjective(i, j);
  }

  // ---------------------------------------------------------------------
  // column_selection_changed

  /** One checkbox change: the list is created if missing, toggled, and
      removed again when empty, as is the file's entry. */
  function QtChange(sel: Selection, f: string, s: string, column: string, checked: bool): Selection {
    var inner := GetOr(sel, f, []);
    var cols := Toggled(GetOr(inner, s, []), column, checked);
    var inner' := if cols == [] then Remove(inner, s) else Put(inner, s, cols);
    if inner' == [] then Remove(sel, f) else Put(sel, f, inner')
  }

  /** No file entry and no sheet list of the selection is empty. */
  predicate Pruned(sel: Selection) {
    forall e :: e in sel ==> e.1 != [] && NoEmptyList(e.1)
  }

  predicate NoEmptyList(sheets: Dict<seq<string>>) {
    forall e :: e in sheets ==> e.1 != []
  }

  /** The change reaches the one (file, sheet) list, which is present
      exactly when the toggled list is not empty; every other list keeps its
      value, and the selection stays well-formed. */
  lemma QtChangeAt(sel: Selection, f: string, s: string, column: string, checked: bool, f': string, s': string)
    requires ValidSelection(sel)
    ensures var cols := Toggled(SelectedFor(sel, f, s), column, checked);
      Lookup2(QtChange(sel, f, s, column, checked), f', s') ==
        if f' == f && s' == s then (if cols == [] then None else Some(cols))
        else Lookup2(sel, f', s')
    ensures ValidSelection(QtChange(sel, f, s, column, checked))
  {
    var inner := GetOr(sel, f, []);
    var cols := Toggled(GetOr(inner, s, []), column, checked);
    var inner' := if cols == [] then Remove(inner, s) else Put(inner, s, cols);
    assert Get(inner', s') == if s' == s then (if cols == [] then None else Some(cols)) else Get(inner, s');
    Lookup2File(sel, f, s');
    if inner' == [] {
      assert Get(inner', s') == None;
      Lookup2Remove(sel, f, f', s');
    } else {
      Lookup2Put(sel, f, inner', f', s');
    }
    QtChangeValid(sel, f, s, column, checked);
  }

  lemma QtChangeValid(sel: Selection, f: string, s: string, column: string, checked: bool)
    requires ValidSelection(sel)
    ensures ValidSelection(QtChange(sel, f, s, column, checked))
  {
    var inner := GetOr(sel, f, []);
    FileEntryValid(sel, f);
    var cols := Toggled(GetOr(inner, s, []), column, checked);
    var inner' := if cols == [] then Remove(inner, s) else Put(inner, s, cols);
    if cols == [] {
      RemoveValid(inner, s);
    } else {
      PutValid(inner, s, cols);
    }
    if inner' == [] {
      RemoveFileValid(sel, f);
    } else {
      PutFileValid(sel, f, inner');
    }
  }

  lemma QtChangePruned(sel: Selection, f: string, s: string, column: string, checked: bool)
    requires Pruned(sel)
    ensures Pruned(QtChange(sel, f, s, column, checked))
  {
    var inner := GetOr(sel, f, []);
    var cols := Toggled(GetOr(inner, s, []), column, checked);
    var inner' := if cols == [] then Remove(inner, s) else Put(inner, s, cols);
    assert NoEmptyList(inner) by {
      if HasKey(sel, f) {
        GetMember(sel, f);
      }
    }
    assert NoEmptyList(inner') by {
      if cols == [] {
        RemoveMembers(inner, s);
      } else {
        PutMembers(inner, s, cols);
      }
    }
    if inner' == [] {
      RemoveMembers(sel, f);
    } else {
      PutMembers(sel, f, inner');
    }
  }

  lemma QtChangeNoDuplicates(sel: Selection, f: string, s: string, column: string, checked: bool)
    requires NoDuplicates(sel)
    ensures NoDuplicates(QtChange(sel, f, s, column, checked))
  {
    var inner := GetOr(sel, f, []);
    var old_ := GetOr(inner, s, []);
    var cols := Toggled(old_, column, checked);
    var inner' := if cols == [] then Remove(inner, s) else Put(inner, s, cols);
    assert forall e2 :: e2 in inner' ==> Distinct(e2.1) by {
      SelectedDistinct(sel, f, s);
      ToggledSpec(old_, column, checked);
      if HasKey(sel, f) {
        GetMember(sel, f);
      }
      PutMembers(inner, s, cols);
      RemoveMembers(inner, s);
    }
    if inner' == [] {
      RemoveFileNoDuplicates(sel, f);
    } else {
      PutFileNoDuplicates(sel, f, inner');
    }
  }

  /** Creating the missing file entry and sheet list, as the handler does
      first, amounts to writing back the list the selection already implies. */
  lemma EnsureEntries(sel: Selection, f: string, s: string)
    ensures var inner := GetOr(sel, f, []);
      var sel1 := if HasKey(sel, f) then sel else Put(sel, f, []);
      var sel2 := if HasKey(GetOr(sel1, f, []), s) then sel1 else SetSheet(sel1, f, s, []);
      sel2 == Put(sel, f, Put(inner, s, GetOr(inner, s, [])))
  {
    var inner := GetOr(sel, f, []);
    var sel1 := if HasKey(sel, f) then sel else Put(sel, f, []);
    assert GetOr(sel1, f, []) == inner;
    if HasKey(inner, s) {
      PutSame(inner, s);
      if HasKey(sel, f) {
        PutSame(sel, f);
      } else {
        PutPut(sel, f, [], inner);
      }
    } else {
      PutPut(sel, f, inner, Put(inner, s, []));
      if !HasKey(sel, f) {
        PutPut(sel, f, [], Put(inner, s, []));
      }
    }
  }

  /** The list update of `column_selection_changed`: `append` when checked
      and missing, `remove` when unchecked and present. */
  method ToggleColumn(cols: seq<string>, columnName: string, checked: bool) returns (r: seq<string>)
    ensures r == Toggled(cols, columnName, checked)
  {
    r := cols;
    if checked {
      if columnName !in r {
        r := r + [columnName];
      }
    } else {
      if columnName in r {
        r := RemoveFirst(r, columnName);
      }
    }
  }

  /** Writing a sheet list over the one the first steps created. */
  lemma SetSheetAgain(sel: Selection, f: string, s: string, cols0: seq<string>, cols: seq<string>)
    ensures var inner := GetOr(sel, f, []);
      SetSheet(Put(sel, f, Put(inner, s, cols0)), f, s, cols) == Put(sel, f, Put(inner, s, cols))
  {
    var inner := GetOr(sel, f, []);
    PutPut(inner, s, cols0, cols);
    PutPut(sel, f, Put(inner, s, cols0), Put(inner, s, cols));
  }

  /** What the pruning steps make of the selection with the toggled list
      written: the change QtChange describes. */
  lemma PruneAfterSet(sel: Selection, f: string, s: string, column: string, checked: bool)
    ensures var inner := GetOr(sel, f, []);
      var cols := Toggled(GetOr(inner, s, []), column, checked);
      Pruning(Put(sel, f, Put(inner, s, cols)), f, s) == QtChange(sel, f, s, column, checked)
  {
    var inner := GetOr(sel, f, []);
    var cols := Toggled(GetOr(inner, s, []), column, checked);
    var inner' := if cols == [] then Remove(inner, s) else Put(inner, s, cols);
    if cols == [] {
      RemovePut(inner, s, cols);
      PutPut(sel, f, Put(inner, s, cols), inner');
      if inner' == [] {
        RemovePut(sel, f, inner');
      }
    }
  }

  /** The handler's last two steps: an empty sheet list is deleted, and
      then an empty file dictionary. */
  function Pruning(sel: Selection, f: string, s: string): Selection {
    var inner := GetOr(sel, f, []);
    var sel1 := if GetOr(inner, s, []) == [] then Put(sel, f, Remove(inner, s)) else sel;
    if GetOr(sel1, f, []) == [] then Remove(sel1, f) else sel1
  }

  /** The counting loop of `apply_profile`. */
  method CountColumns(selections: Selection) returns (totalSelected: nat)
    ensures totalSelected == TotalSelected(selections)
  {
    totalSelected := 0;
    for i := 0 to |selections|
      invariant totalSelected == TotalSelected(selections[..i])
    {
      var f := selections[i].0;
      var sheets: Dict<seq<string>> := selections[i].1;
      assert selections[..i + 1] == selections[..i] + [(f, sheets)];
      TotalAppend(selections[..i], f, sheets);
      for j := 0 to |sheets|
        invariant totalSelected == TotalSelected(selections[..i]) + SheetTotal(sheets[..j])
      {
        assert sheets[..j + 1] == sheets[..j] + [sheets[j]];
        SheetTotalAppend(sheets[..j], sheets[j].0, sheets[j].1);
        totalSelected := totalSelected + |sheets[j].1|;
      }
      assert sheets[..|sheets|] == sheets;
    }
    assert selections[..|selections|] == selections;
  }

  // ---------------------------------------------------------------------
  // The main window's state

  class QtExtractorApp {
    var fileData: FileData
    var selectedColumns: Selection

    constructor ()
      ensures fileData == [] && selectedColumns == []
    {
      fileData := [];
      selectedColumns := [];
    }

    /** `column_selection_changed`, step by step on the nested dictionary. */
    method ColumnSelectionChanged(fileName: string, sheetName: string, columnName: string, checked: bool)
      modifies this
      ensures selectedColumns == QtChange(old(selectedColumns), fileName, sheetName, columnName, checked)
      ensures old(Pruned(selectedColumns)) ==> Pruned(selectedColumns)
      ensures old(NoDuplicates(selectedColumns)) ==> NoDuplicates(selectedColumns)
      ensures fileData == old(fileData)
    {
      ghost var sel0 := selectedColumns;
      ghost var inner0 := GetOr(sel0, fileName, []);
      EnsureEntry(fileName, sheetName);
      var cols0 := GetOr(GetOr(selectedColumns, fileName, []), sheetName, []);
      var cols := ToggleColumn(cols0, columnName, checked);
      assert cols0 == GetOr(inner0, sheetName, []);
      ghost var sel2 := Put(sel0, fileName, Put(inner0, sheetName, cols));
      assert SetSheet(selectedColumns, fileName, sheetName, cols) == sel2 by {
        SetSheetAgain(sel0, fileName, sheetName, cols0, cols);
      }
      selectedColumns := SetSheet(selectedColumns, fileName, sheetName, cols);
      PruneEmpty(fileName, sheetName);
      assert selectedColumns == QtChange(sel0, fileName, sheetName, columnName, checked) by {
        assert selectedColumns == Pruning(sel2, fileName, sheetName);
        PruneAfterSet(sel0, fileName, sheetName, columnName, checked);
      }
      if Pruned(sel0) {
        QtChangePruned(sel0, fileName, sheetName, columnName, checked);
      }
      if NoDuplicates(sel0) {
        QtChangeNoDuplicates(sel0, fileName, sheetName, columnName, checked);
      }
    }

    /** The first two steps of the handler: `sel[f] = {}` when the file is
        missing, then `sel[f][s] = []` when the sheet is missing. */
    method EnsureEntry(fileName: string, sheetName: string)
      modifies this
      ensures var inner := GetOr(old(selectedColumns), fileName, []);
        selectedColumns == Put(old(selectedColumns), fileName, Put(inner, sheetName, GetOr(inner, sheetName, [])))
      ensures fileData == old(fileData)
    {
      EnsureEntries(selectedColumns, fileName, sheetName);
      if !HasKey(selectedColumns, fileName) {
        selectedColumns := Put(selectedColumns, fileName, []);
      }
      if !HasKey(GetOr(selectedColumns, fileName, []), sheetName) {
        selectedColumns := SetSheet(selectedColumns, fileName, sheetName, []);
      }
    }

    /** The last two steps: `del sel[f][s]` when that list is empty, then
        `del sel[f]` when the file's dictionary is empty. */
    method PruneEmpty(fileName: string, sheetName: string)
      modifies this
      ensures selectedColumns == Pruning(old(selectedColumns), fileName, sheetName)
      ensures fileData == old(fileData)
    {
      if GetOr(GetOr(selectedColumns, fileName, []), sheetName, []) == [] {
        selectedColumns := Put(selectedColumns, fileName, Remove(GetOr(selectedColumns, fileName, []), sheetName));
      }
      if GetOr(selectedColumns, fileName, []) == [] {
        selectedColumns := Remove(selectedColumns, fileName);
      }
    }

    /** `apply_profile`: nothing happens without a profile or loaded data,
        or when the profile matches no loaded sheet; otherwise the matches
        replace the selection and their columns are counted. */
    method ApplyProfile(profile: ExtractionProfile?) returns (applied: bool, totalSelected: nat)
      modifies this
      ensures fileData == old(fileData)
      ensures applied <==> profile != null && fileData != [] && MatchToNewFilesSpec(profile.columnPatterns, fileData) != []
      ensures !applied ==> selectedColumns == old(selectedColumns) && totalSelected == 0
      ensures applied ==> selectedColumns == MatchToNewFilesSpec(profile.columnPatterns, fileData)
      ensures applied ==> totalSelected == TotalSelected(selectedColumns)
    {
      if profile == null || fileData == [] {
        return false, 0;
      }
      var selections := profile.MatchToNewFiles(fileData);
      if selections == [] {
        return false, 0;
      }
      selectedColumns := selections;
      totalSelected := CountColumns(selections);
      applied := true;
    }
  }
}
