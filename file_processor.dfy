/**
 * The shared processing steps (file_processor.py): which archive entries are
 * Excel files, which sheets of a read workbook are kept, and how the merged
 * workbook is laid out: one worksheet per (file, sheet) with a non-empty
 * column selection, named after the file and the sheet, then a summary
 * sheet. Opening archives and workbooks and writing the result are outside
 * the model: their outcomes are parameters.
 */
module FileProcessor {
  import opened PyStrings
  import opened OrderedDicts
  import opened Tables
  import opened UniqueNames
  import opened PyLists

  // ---------------------------------------------------------------------
  // Paths

  /** `os.path.basename`: the text after the last '/'. */
  function Basename(path: string): (r: string)
    ensures |r| <= |path| && r == path[|path| - |r|..]
    ensures '/' !in r
    ensures path != [] && path[|path| - 1] != '/' ==> r != []
    ensures '/' !in path ==> r == path
  {
    if path == [] then []
    else if path[|path| - 1] == '/' then []
    else
      var r := Basename(path[..|path| - 1]) + [path[|path| - 1]];
      assert path == path[..|path| - 1] + [path[|path| - 1]];
      r
  }

  /** `os.path.join(directory, name)` for two parts. */
  function PathJoin(directory: string, name: string): string {
    if StartsWith(name, "/") then name
    else if directory == [] || EndsWith(directory, "/") then directory + name
    else directory + "/" + name
  }

  /** `s.rfind(c)`, with None for -1. */
  function LastIndexOf(s: string, c: char): (r: Option<nat>)
    ensures r.None? ==> c !in s
    ensures r.Some? ==> r.value < |s| && s[r.value] == c && c !in s[r.value + 1..]
  {
    if s == [] then None
    else if s[|s| - 1] == c then Some(|s| - 1)
    else
      var r := LastIndexOf(s[..|s| - 1], c);
      assert s == s[..|s| - 1] + [s[|s| - 1]];
      if r.Some? then
        assert s[r.value + 1..] == s[..|s| - 1][r.value + 1..] + [s[|s| - 1]];
        r
      else r
  }

  /** `Path(file_name).stem`: the last path component without its final
      suffix; a leading or a trailing dot is not a suffix. */
  function Stem(fileName: string): string {
    var name := Basename(fileName);
    match LastIndexOf(name, '.')
    case None => name
    case Some(i) => if 0 < i < |name| - 1 then name[..i] else name
  }

  lemma StemOfSuffixed(name: string, suffix: string)
    requires name != [] && '/' !in name
    requires suffix != [] && '.' !in suffix && '/' !in suffix
    ensures Stem(name + "." + suffix) == name
  {
    var full := name + "." + suffix;
    assert '/' !in full;
    assert full[|name|] == '.';
    assert full[|name| + 1..] == suffix;
    assert full[..|name|] == name;
  }

  // ---------------------------------------------------------------------
  // extract_zip_file

  /** The archive-entry filter: an Excel extension (in any case), and not a
      folder entry. */
  predicate KeepArchiveEntry(entry: string) {
    var lower := Lower(entry);
    && (EndsWith(lower, ".xlsx") || EndsWith(lower, ".xls"))
    && !(EndsWith(entry, "/") || Basename(entry) == "")
  }

  /** The folder test can never reject an entry with an Excel extension: its
      last character is an 'x' or an 's' in some case, so it is not a '/'. */
  lemma ArchiveFolderTestRedundant(entry: string)
    ensures KeepArchiveEntry(entry) <==>
      EndsWith(Lower(entry), ".xlsx") || EndsWith(Lower(entry), ".xls")
  {
    var lower := Lower(entry);
    if EndsWith(lower, ".xlsx") || EndsWith(lower, ".xls") {
      var n := |entry|;
      assert lower[n - 1] == 'x' || lower[n - 1] == 's' by {
        if EndsWith(lower, ".xlsx") {
          var tail := lower[n - 5..];
          assert tail == ".xlsx";
          assert tail[4] == lower[n - 1];
        } else {
          var tail := lower[n - 4..];
          assert tail == ".xls";
          assert tail[3] == lower[n - 1];
        }
      }
      assert LowerChar(entry[n - 1]) == lower[n - 1];
      assert entry[n - 1] != '/';
      assert entry[n - 1..] == [entry[n - 1]];
    }
  }

  /** The files `extract_zip_file` lists from the archive entries, in entry
      order, when `extracted(e)` says whether entry e could be extracted. */
  function ArchiveFiles(entries: seq<string>, extractDir: string, extracted: string -> bool): seq<string>
    decreases |entries|
  {
    if entries == [] then []
    else
      var e := entries[|entries| - 1];
      var init := ArchiveFiles(entries[..|entries| - 1], extractDir, extracted);
      if KeepArchiveEntry(e) && extracted(e) then init + [PathJoin(extractDir, e)] else init
  }

  /** Every listed file is a kept, extracted entry under the extraction
      directory, and every such entry is listed. */
  lemma {:induction false} ArchiveFilesMembers(entries: seq<string>, extractDir: string, extracted: string -> bool)
    ensures forall p :: p in ArchiveFiles(entries, extractDir, extracted) <==>
      exists e :: e in entries && KeepArchiveEntry(e) && extracted(e) && p == PathJoin(extractDir, e)
    decreases |entries|
  {
    if entries != [] {
      var init := entries[..|entries| - 1];
      ArchiveFilesMembers(init, extractDir, extracted);
      assert entries == init + [entries[|entries| - 1]];
    }
  }

  lemma ArchiveFilesLast(entries: seq<string>, i: nat, extractDir: string, extracted: string -> bool)
    requires i < |entries|
    ensures var e := entries[i];
      var init := ArchiveFiles(entries[..i], extractDir, extracted);
      ArchiveFiles(entries[..i + 1], extractDir, extracted) ==
        if KeepArchiveEntry(e) && extracted(e) then init + [PathJoin(extractDir, e)] else init
  {
    assert entries[..i + 1][..i] == entries[..i];
  }

  /** The extraction loop over the archive's entry list. */
  method ExtractZipEntries(entries: seq<string>, extractDir: string, extracted: string -> bool)
    returns (excelFiles: seq<string>)
    ensures excelFiles == ArchiveFiles(entries, extractDir, extracted)
  {
    excelFiles := [];
    var i := 0;
    while i < |entries|
      invariant 0 <= i <= |entries|
      invariant excelFiles == ArchiveFiles(entries[..i], extractDir, extracted)
    {
      var fileName := entries[i];
      var lowerName := Lower(fileName);
      ArchiveFilesLast(entries, i, extractDir, extracted);
      if EndsWith(lowerName, ".xlsx") || EndsWith(lowerName, ".xls") {
        if !(EndsWith(fileName, "/") || Basename(fileName) == "") {
          if extracted(fileName) {
            excelFiles := excelFiles + [PathJoin(extractDir, fileName)];
          }
        }
      }
      i := i + 1;
    }
    assert entries[..i] == entries;
  }

  // ---------------------------------------------------------------------
  // read_excel_files

  /** What reading one sheet gives. */
  datatype SheetRead = SheetLoaded(table: Table) | SheetFailed

  /** What opening one workbook gives: its sheets in order, or an error,
      after which an `.xls` file is read once more as a single frame. */
  datatype WorkbookRead = Opened(sheets: seq<(string, SheetRead)>) | OpenFailed(xlrd: Option<Table>)

  /** The sheet loop: keep the sheets that were read and are not empty. */
  function KeptSheets(sheets: seq<(string, SheetRead)>): (r: Sheets)
    ensures Valid(r)
    ensures forall e :: e in r ==> !IsEmpty(e.1)
    decreases |sheets|
  {
    if sheets == [] then []
    else
      var init := KeptSheets(sheets[..|sheets| - 1]);
      var (name, read) := sheets[|sheets| - 1];
      if read.SheetLoaded? && !IsEmpty(read.table) then
        PutValid(init, name, read.table);
        PutMembers(init, name, read.table);
        Put(init, name, read.table)
      else init
  }

  /** Which sheets the loop keeps: a name is kept exactly when some sheet of
      that name was read and is not empty. */
  lemma {:induction false} KeptSheetsKeys(sheets: seq<(string, SheetRead)>)
    ensures forall name :: name in Keys(KeptSheets(sheets)) <==>
      exists j :: 0 <= j < |sheets| && sheets[j].0 == name && sheets[j].1.SheetLoaded? && !IsEmpty(sheets[j].1.table)
    decreases |sheets|
  {
    if sheets != [] {
      var init := sheets[..|sheets| - 1];
      KeptSheetsKeys(init);
      assert forall j :: 0 <= j < |init| ==> init[j] == sheets[j];
    }
  }

  /** One pass of the file loop. The entry is keyed by the file's base name,
      so a later file with the same base name replaces an earlier one. */
  function ReadOne(fd: FileData, path: string, wb: WorkbookRead): FileData {
    var fileName := Basename(path);
    match wb
    case OpenFailed(xlrd) =>
      if EndsWith(Lower(path), ".xls") && xlrd.Some? then Put(fd, fileName, [("Sheet1", xlrd.value)]) else fd
    case Opened(sheets) =>
      var kept := KeptSheets(sheets);
      if kept == [] then Remove(fd, fileName) else Put(fd, fileName, kept)
  }

  /** What `read_excel_files` returns when `read(p)` is the outcome of
      opening p. */
  function ReadFiles(paths: seq<string>, read: string -> WorkbookRead): FileData
    decreases |paths|
  {
    if paths == [] then []
    else
      var p := paths[|paths| - 1];
      ReadOne(ReadFiles(paths[..|paths| - 1], read), p, read(p))
  }

  /** A file entry as reading leaves it: at least one sheet, distinct sheet
      names, and no empty sheet except the single "Sheet1" frame of the
      `.xls` fallback, which is stored without the emptiness test. */
  predicate ReadEntry(e: (string, Sheets)) {
    && |e.1| >= 1
    && Valid(e.1)
    && forall t :: t in e.1 ==> !IsEmpty(t.1) || e.1 == [("Sheet1", t.1)]
  }

  /** One pass of the file loop keeps the reading invariant. */
  lemma ReadOneSpec(fd: FileData, path: string, wb: WorkbookRead)
    requires Valid(fd) && forall e :: e in fd ==> ReadEntry(e)
    ensures Valid(ReadOne(fd, path, wb))
    ensures forall e :: e in ReadOne(fd, path, wb) ==> ReadEntry(e)
    ensures forall e :: e in ReadOne(fd, path, wb) ==> e in fd || e.0 == Basename(path)
  {
    var fileName := Basename(path);
    match wb
    case OpenFailed(xlrd) =>
      if EndsWith(Lower(path), ".xls") && xlrd.Some? {
        PutValid(fd, fileName, [("Sheet1", xlrd.value)]);
        PutMembers(fd, fileName, [("Sheet1", xlrd.value)]);
        assert Keys([("Sheet1", xlrd.value)]) == ["Sheet1"];
        assert ReadEntry((fileName, [("Sheet1", xlrd.value)]));
      }
    case Opened(sheets) =>
      var kept := KeptSheets(sheets);
      if kept == [] {
        RemoveValid(fd, fileName);
        RemoveMembers(fd, fileName);
      } else {
        PutValid(fd, fileName, kept);
        PutMembers(fd, fileName, kept);
        assert ReadEntry((fileName, kept));
      }
  }

  /** What reading returns: a valid dictionary keyed by base names of the
      given paths, each entry as ReadEntry describes. */
  lemma {:induction false} ReadFilesSpec(paths: seq<string>, read: string -> WorkbookRead)
    ensures Valid(ReadFiles(paths, read))
    ensures forall e :: e in ReadFiles(paths, read) ==> ReadEntry(e)
    ensures forall e :: e in ReadFiles(paths, read) ==> exists p :: p in paths && e.0 == Basename(p)
    decreases |paths|
  {
    if paths != [] {
      var init := paths[..|paths| - 1];
      var p := paths[|paths| - 1];
      ReadFilesSpec(init, read);
      ReadOneSpec(ReadFiles(init, read), p, read(p));
      assert forall q :: q in init ==> q in paths;
      assert p in paths;
    }
  }

  /** The reading loop, proved to compute ReadFiles. */
  method ReadExcelFiles(filePaths: seq<string>, read: string -> WorkbookRead) returns (fileData: FileData)
    ensures fileData == ReadFiles(filePaths, read)
  {
    fileData := [];
    var i := 0;
    while i < |filePaths|
      invariant 0 <= i <= |filePaths|
      invariant fileData == ReadFiles(filePaths[..i], read)
    {
      var filePath := filePaths[i];
      var fileName := Basename(filePath);
      assert filePaths[..i + 1][..i] == filePaths[..i];
      ghost var before := fileData;
      match read(filePath) {
        case OpenFailed(xlrd) =>
          if EndsWith(Lower(filePath), ".xls") && xlrd.Some? {
            fileData := Put(fileData, fileName, [("Sheet1", xlrd.value)]);
          }
        case Opened(sheetNames) =>
          fileData := Put(fileData, fileName, []);
          var entry := ReadSheets(sheetNames);
          if entry == [] {
            RemovePut(before, fileName, []);
            fileData := Remove(fileData, fileName);
          } else {
            PutPut(before, fileName, [], entry);
            fileData := Put(fileData, fileName, entry);
          }
      }
      i := i + 1;
    }
    assert filePaths[..i] == filePaths;
  }

  /** The sheet loop of one workbook, proved to compute KeptSheets. */
  method ReadSheets(sheetNames: seq<(string, SheetRead)>) returns (entry: Sheets)
    ensures entry == KeptSheets(sheetNames)
  {
    entry := [];
    var j := 0;
    while j < |sheetNames|
      invariant 0 <= j <= |sheetNames|
      invariant entry == KeptSheets(sheetNames[..j])
    {
      assert sheetNames[..j + 1][..j] == sheetNames[..j];
      var e := sheetNames[j];
      if e.1.SheetLoaded? && !IsEmpty(e.1.table) {
        entry := Put(entry, e.0, e.1.table);
      }
      j := j + 1;
    }
    assert sheetNames[..j] == sheetNames;
  }

  // ---------------------------------------------------------------------
  // Worksheet names

  function Truncate(s: string, n: nat): (r: string)
    ensures |r| <= n && |r| <= |s| && r == s[..|r|]
    ensures |s| <= n ==> r == s
  {
    if |s| <= n then s else s[..n]
  }

  /** `f"{Path(file_name).stem}_{sheet_name}"` without '[', ']' and ':',
      cut to Excel's 31 characters. */
  function WorksheetBaseName(fileName: string, sheetName: string): string {
    var raw := Stem(fileName) + "_" + sheetName;
    Truncate(Replace(Replace(Replace(raw, "[", ""), "]", ""), ":", ""), 31)
  }

  /** The shape every worksheet name has: it contains an underscore, or it
      was cut to 31 characters. Neither is true of "Summary". */
  predicate NameShape(name: string) {
    '_' in name || |name| == 31
  }

  lemma WorksheetBaseNameSpec(fileName: string, sheetName: string)
    ensures var r := WorksheetBaseName(fileName, sheetName);
      && |r| <= 31
      && '[' !in r && ']' !in r && ':' !in r
      && NameShape(r)
  {
    var raw := Stem(fileName) + "_" + sheetName;
    assert '_' in raw by {
      assert raw[|Stem(fileName)|] == '_';
    }
    CleanedShape(raw);
    TruncatedShape(Replace(Replace(Replace(raw, "[", ""), "]", ""), ":", ""));
  }

  /** Deleting the three characters keeps the underscore. */
  lemma CleanedShape(raw: string)
    requires '_' in raw
    ensures var c := Replace(Replace(Replace(raw, "[", ""), "]", ""), ":", "");
      '_' in c && '[' !in c && ']' !in c && ':' !in c
  {
    var a := DeleteChar(raw, '[');
    var b := DeleteChar(a, ']');
    var c := DeleteChar(b, ':');
    ReplaceCharByEmpty(raw, '[');
    ReplaceCharByEmpty(a, ']');
    ReplaceCharByEmpty(b, ':');
  }

  /** Cutting a cleaned name to 31 characters keeps it clean and keeps its
      shape. */
  lemma TruncatedShape(c: string)
    requires '_' in c && '[' !in c && ']' !in c && ':' !in c
    ensures var r := Truncate(c, 31);
      && |r| <= 31
      && '[' !in r && ']' !in r && ':' !in r
      && NameShape(r)
  {
    var r := Truncate(c, 31);
    assert forall i :: 0 <= i < |r| ==> r[i] == c[i];
  }

  /** The dedupe loop's result: the base name when it is free, otherwise
      `base[:27] + "_" + n` for the least free n. */
  function WorksheetName(base: string, existing: seq<string>): string {
    FreeName(base, base[..if |base| < 27 then |base| else 27] + "_", "", Elems(existing))
  }

  lemma WorksheetNameSpec(base: string, existing: seq<string>)
    ensures var r := WorksheetName(base, existing);
      && r !in existing
      && (base !in existing ==> r == base)
      && (NameShape(base) ==> NameShape(r))
      && (|base| <= 31 && |existing| <= 998 ==> |r| <= 31)
  {
    var prefix := base[..if |base| < 27 then |base| else 27] + "_";
    var taken := Elems(existing);
    var r := WorksheetName(base, existing);
    if base in taken {
      var n: nat :| n >= 1 && r == Candidate(prefix, n, "") && TakenBelow(prefix, "", taken, n);
      assert r[|prefix| - 1] == '_';
      if |existing| <= 998 {
        TakenBound(prefix, "", taken, n);
        ElemsSize(existing);
        ShortNumber(n);
      }
    }
  }

  /** The dedupe `while` loop over the names in the workbook. */
  method ChooseWorksheetName(base: string, existing: seq<string>) returns (wsName: string)
    ensures wsName == WorksheetName(base, existing)
  {
    var originalWsName := base;
    wsName := ChooseFreeName(base, originalWsName[..if |originalWsName| < 27 then |originalWsName| else 27] + "_", "", Elems(existing));
  }

  // ---------------------------------------------------------------------
  // Worksheets

  /** A written worksheet: its name and its rows of cells. */
  datatype Worksheet = Worksheet(name: string, rows: seq<seq<Cell>>)

  function Names(ws: seq<Worksheet>): (r: seq<string>)
    ensures |r| == |ws|
    ensures forall i :: 0 <= i < |ws| ==> r[i] == ws[i].name
  {
    if ws == [] then [] else Names(ws[..|ws| - 1]) + [ws[|ws| - 1].name]
  }

  /** Every selected column is a column of the frame: otherwise `df[cols]`
      raises. */
  predicate AllPresent(cols: seq<string>, columns: seq<string>) {
    forall j :: 0 <= j < |cols| ==> cols[j] in columns
  }

  /** A missing value is written as the empty text. */
  function OutValue(v: Option<Cell>): Cell {
    if v.None? then Text("") else v.value
  }

  function CellAt(row: seq<Option<Cell>>, k: nat): Option<Cell> {
    if k < |row| then row[k] else None
  }

  /** The rows of a worksheet for the selected columns of a frame: the
      column names first, then each data row restricted to those columns. */
  function SheetRows(t: Table, cols: seq<string>): (rows: seq<seq<Cell>>)
    requires AllPresent(cols, t.columns)
    ensures |rows| == |t.rows| + 1
    ensures forall i :: 0 <= i < |rows| ==> |rows[i]| == |cols|
    ensures forall j :: 0 <= j < |cols| ==> rows[0][j] == Text(cols[j])
    ensures forall r, j :: 0 <= r < |t.rows| && 0 <= j < |cols| ==>
      rows[r + 1][j] == OutValue(CellAt(t.rows[r], IndexOf(t.columns, cols[j])))
  {
    [seq(|cols|, j requires 0 <= j < |cols| => Text(cols[j]))] +
    seq(|t.rows|, r requires 0 <= r < |t.rows| =>
      seq(|cols|, j requires 0 <= j < |cols| => OutValue(CellAt(t.rows[r], IndexOf(t.columns, cols[j])))))
  }

  /** The header loop and the data-row loops, cell by cell. */
  method WriteWorksheet(wsName: string, df: Table, cols: seq<string>) returns (ws: Worksheet)
    requires AllPresent(cols, df.columns)
    ensures ws == Worksheet(wsName, SheetRows(df, cols))
  {
    var header: seq<Cell> := [];
    var colIdx := 0;
    while colIdx < |cols|
      invariant 0 <= colIdx <= |cols|
      invariant |header| == colIdx
      invariant forall j :: 0 <= j < colIdx ==> header[j] == Text(cols[j])
    {
      header := header + [Text(cols[colIdx])];
      colIdx := colIdx + 1;
    }
    var rows := [header];
    var rowIdx := 0;
    while rowIdx < |df.rows|
      invariant 0 <= rowIdx <= |df.rows|
      invariant |rows| == rowIdx + 1 && rows[0] == header
      invariant forall r :: 1 <= r <= rowIdx ==> |rows[r]| == |cols|
      invariant forall r, j :: 0 <= r < rowIdx && 0 <= j < |cols| ==>
        rows[r + 1][j] == OutValue(CellAt(df.rows[r], IndexOf(df.columns, cols[j])))
    {
      var row: seq<Cell> := [];
      var c := 0;
      while c < |cols|
        invariant 0 <= c <= |cols|
        invariant |row| == c
        invariant forall j :: 0 <= j < c ==> row[j] == OutValue(CellAt(df.rows[rowIdx], IndexOf(df.columns, cols[j])))
      {
        var value := CellAt(df.rows[rowIdx], IndexOf(df.columns, cols[c]));
        if value.None? {
          row := row + [Text("")];
        } else {
          row := row + [value.value];
        }
        c := c + 1;
      }
      rows := rows + [row];
      rowIdx := rowIdx + 1;
    }
    var spec := SheetRows(df, cols);
    assert forall i :: 0 <= i < |rows| ==> rows[i] == spec[i];
    ws := Worksheet(wsName, rows);
  }

  // ---------------------------------------------------------------------
  // The summary sheet

  const SummaryHeader: seq<Cell> := [Text("File"), Text("Sheet"), Text("Columns Extracted")]

  function SummaryRow(fileName: string, sheetName: string, cols: seq<string>): seq<Cell> {
    [Text(fileName), Text(sheetName), Text(Join(", ", cols))]
  }

  /** One summary row per sheet of one file with a non-empty selection. */
  function SummaryFileRows(fileName: string, sheets: Dict<seq<string>>): seq<seq<Cell>>
    decreases |sheets|
  {
    if sheets == [] then []
    else
      var (sheetName, cols) := sheets[|sheets| - 1];
      var init := SummaryFileRows(fileName, sheets[..|sheets| - 1]);
      if cols != [] then init + [SummaryRow(fileName, sheetName, cols)] else init
  }

  /** The summary rows after the header, in selection order. */
  function SummaryRows(selected: Selection): seq<seq<Cell>>
    decreases |selected|
  {
    if selected == [] then []
    else
      var (fileName, sheets) := selected[|selected| - 1];
      SummaryRows(selected[..|selected| - 1]) + SummaryFileRows(fileName, sheets)
  }

  function SummarySheet(selected: Selection): Worksheet {
    Worksheet("Summary", [SummaryHeader] + SummaryRows(selected))
  }

  /** Some selected (file, sheet) with a non-empty list gives this row. */
  predicate SummarisedIn(selected: Selection, row: seq<Cell>) {
    exists i, j :: 0 <= i < |selected| && 0 <= j < |selected[i].1| &&
      selected[i].1[j].1 != [] &&
      row == SummaryRow(selected[i].0, selected[i].1[j].0, selected[i].1[j].1)
  }

  /** Number of non-empty lists in one file's selection. */
  function NonEmptyLists(sheets: Dict<seq<string>>): nat
    decreases |sheets|
  {
    if sheets == [] then 0
    else NonEmptyLists(sheets[..|sheets| - 1]) + (if sheets[|sheets| - 1].1 != [] then 1 else 0)
  }

  function NonEmptySelections(selected: Selection): nat
    decreases |selected|
  {
    if selected == [] then 0
    else NonEmptySelections(selected[..|selected| - 1]) + NonEmptyLists(selected[|selected| - 1].1)
  }

  lemma {:induction false} SummaryFileRowsSpec(fileName: string, sheets: Dict<seq<string>>)
    ensures |SummaryFileRows(fileName, sheets)| == NonEmptyLists(sheets)
    ensures forall row :: row in SummaryFileRows(fileName, sheets) ==>
      exists j :: 0 <= j < |sheets| && sheets[j].1 != [] && row == SummaryRow(fileName, sheets[j].0, sheets[j].1)
    decreases |sheets|
  {
    if sheets != [] {
      var init := sheets[..|sheets| - 1];
      SummaryFileRowsSpec(fileName, init);
      forall row | row in SummaryFileRows(fileName, sheets)
        ensures exists j :: 0 <= j < |sheets| && sheets[j].1 != [] && row == SummaryRow(fileName, sheets[j].0, sheets[j].1)
      {
        if row in SummaryFileRows(fileName, init) {
          var j :| 0 <= j < |init| && init[j].1 != [] && row == SummaryRow(fileName, init[j].0, init[j].1);
          assert init[j] == sheets[j];
        } else {
          var n := |sheets| - 1;
          assert row == SummaryRow(fileName, sheets[n].0, sheets[n].1);
        }
      }
    }
  }

  /** One summary row per non-empty selection, each naming its file, its
      sheet and its columns joined by ", ". */
  lemma {:induction false} SummaryRowsSpec(selected: Selection)
    ensures |SummaryRows(selected)| == NonEmptySelections(selected)
    ensures forall row :: row in SummaryRows(selected) ==> SummarisedIn(selected, row)
    decreases |selected|
  {
    if selected != [] {
      var init := selected[..|selected| - 1];
      var n := |selected| - 1;
      SummaryRowsSpec(init);
      SummaryFileRowsSpec(selected[n].0, selected[n].1);
      forall row | row in SummaryRows(selected) ensures SummarisedIn(selected, row) {
        if row in SummaryRows(init) {
          var i, j :| 0 <= i < |init| && 0 <= j < |init[i].1| && init[i].1[j].1 != [] &&
            row == SummaryRow(init[i].0, init[i].1[j].0, init[i].1[j].1);
          assert init[i] == selected[i];
        } else {
          assert row in SummaryFileRows(selected[n].0, selected[n].1);
          var j :| 0 <= j < |selected[n].1| && selected[n].1[j].1 != [] &&
            row == SummaryRow(selected[n].0, selected[n].1[j].0, selected[n].1[j].1);
          assert SummarisedIn(selected, row);
        }
      }
    }
  }

  /** The converse: each sheet of the file with a non-empty list has its row,
      at the position given by the number of non-empty lists before it. */
  lemma {:induction false} SummaryFileRowAt(fileName: string, sheets: Dict<seq<string>>, j: nat)
    requires j < |sheets| && sheets[j].1 != []
    ensures NonEmptyLists(sheets[..j]) < |SummaryFileRows(fileName, sheets)|
    ensures SummaryFileRows(fileName, sheets)[NonEmptyLists(sheets[..j])] == SummaryRow(fileName, sheets[j].0, sheets[j].1)
    decreases |sheets|
  {
    var n := |sheets| - 1;
    var init := sheets[..n];
    SummaryFileRowsSpec(fileName, init);
    if j < n {
      assert sheets[..j] == init[..j];
      assert init[j] == sheets[j];
      SummaryFileRowAt(fileName, init, j);
    } else {
      assert sheets[..j] == init;
    }
  }

  /** Each selected (file, sheet) with a non-empty list has its summary row,
      at the position given by the non-empty lists of the files before it
      and of the sheets before it in its file. With the count above, this
      fixes every row and their order. */
  lemma {:induction false} SummaryRowAt(selected: Selection, i: nat, j: nat)
    requires i < |selected| && j < |selected[i].1| && selected[i].1[j].1 != []
    ensures var pos := NonEmptySelections(selected[..i]) + NonEmptyLists(selected[i].1[..j]);
      && pos < |SummaryRows(selected)|
      && SummaryRows(selected)[pos] == SummaryRow(selected[i].0, selected[i].1[j].0, selected[i].1[j].1)
    decreases |selected|
  {
    var n := |selected| - 1;
    var init := selected[..n];
    SummaryRowsSpec(init);
    if i < n {
      assert selected[..i] == init[..i];
      assert init[i] == selected[i];
      SummaryRowAt(init, i, j);
    } else {
      assert selected[..i] == init;
      SummaryFileRowAt(selected[n].0, selected[n].1, j);
    }
  }

  /** The summary loops with their `row` counter. */
  method WriteSummary(selected: Selection) returns (summary: Worksheet)
    ensures summary == SummarySheet(selected)
  {
    var rows := [SummaryHeader];
    var row := 1;
    var i := 0;
    while i < |selected|
      invariant 0 <= i <= |selected|
      invariant rows == [SummaryHeader] + SummaryRows(selected[..i])
      invariant row == |rows|
    {
      var (fileName, sheets) := selected[i];
      ghost var before := rows;
      var j := 0;
      while j < |sheets|
        invariant 0 <= j <= |sheets|
        invariant rows == before + SummaryFileRows(fileName, sheets[..j])
        invariant row == |rows|
      {
        var (sheetName, cols) := sheets[j];
        assert sheets[..j + 1][..j] == sheets[..j];
        if cols != [] {
          rows := rows + [SummaryRow(fileName, sheetName, cols)];
          row := row + 1;
        }
        j := j + 1;
      }
      assert sheets[..j] == sheets;
      assert selected[..i + 1][..i] == selected[..i];
      i := i + 1;
    }
    assert selected[..i] == selected;
    summary := Worksheet("Summary", rows);
  }

  // ---------------------------------------------------------------------
  // process_and_merge_data

  /** One (file, sheet) of the merge loop. None once a selected column is
      missing from the frame, which makes `df[cols]` raise. */
  function MergeStep(acc: Option<seq<Worksheet>>, fileName: string, sheetName: string,
                     t: Table, selected: Selection): Option<seq<Worksheet>>
  {
    if acc.None? then None
    else
      var cols := SelectedFor(selected, fileName, sheetName);
      if cols == [] then acc
      else if !AllPresent(cols, t.columns) then None
      else
        var name := WorksheetName(WorksheetBaseName(fileName, sheetName), Names(acc.value));
        Some(acc.value + [Worksheet(name, SheetRows(t, cols))])
  }

  function MergeSheets(acc: Option<seq<Worksheet>>, fileName: string, sheets: Sheets,
                       selected: Selection): Option<seq<Worksheet>>
    decreases |sheets|
  {
    if sheets == [] then acc
    else
      var (sheetName, t) := sheets[|sheets| - 1];
      MergeStep(MergeSheets(acc, fileName, sheets[..|sheets| - 1], selected), fileName, sheetName, t, selected)
  }

  function MergeFiles(acc: Option<seq<Worksheet>>, files: FileData, selected: Selection): Option<seq<Worksheet>>
    decreases |files|
  {
    if files == [] then acc
    else
      var (fileName, sheets) := files[|files| - 1];
      MergeSheets(MergeFiles(acc, files[..|files| - 1], selected), fileName, sheets, selected)
  }

  /** The outcome of a merge: the saved workbook, or False. */
  datatype MergeResult = Saved(workbook: seq<Worksheet>) | Failed

  /** The merge with the sheet names taken from the workbook's own list of
      sheets (as excel_extractor_wx.py does it); `saveOk` is whether
      `workbook.save` succeeds. */
  function MergeSpec(fileData: FileData, selected: Selection, saveOk: bool): MergeResult {
    var ws := MergeFiles(Some([]), fileData, selected);
    if ws.None? || !saveOk then Failed else Saved(ws.value + [SummarySheet(selected)])
  }

  /** Number of loaded (file, sheet) pairs with a non-empty selection. */
  function CountSheets(fileName: string, sheets: Sheets, selected: Selection): nat
    decreases |sheets|
  {
    if sheets == [] then 0
    else
      CountSheets(fileName, sheets[..|sheets| - 1], selected) +
      (if SelectedFor(selected, fileName, sheets[|sheets| - 1].0) != [] then 1 else 0)
  }

  function CountSelected(files: FileData, selected: Selection): nat
    decreases |files|
  {
    if files == [] then 0
    else
      var (fileName, sheets) := files[|files| - 1];
      CountSelected(files[..|files| - 1], selected) + CountSheets(fileName, sheets, selected)
  }

  lemma {:induction false} MergeSheetsNone(fileName: string, sheets: Sheets, selected: Selection)
    ensures MergeSheets(None, fileName, sheets, selected) == None
    decreases |sheets|
  {
    if sheets != [] {
      MergeSheetsNone(fileName, sheets[..|sheets| - 1], selected);
    }
  }

  lemma {:induction false} MergeFilesNone(files: FileData, selected: Selection)
    ensures MergeFiles(None, files, selected) == None
    decreases |files|
  {
    if files != [] {
      var (fileName, sheets) := files[|files| - 1];
      MergeFilesNone(files[..|files| - 1], selected);
      MergeSheetsNone(fileName, sheets, selected);
    }
  }

  /** Once the loop has failed, the merge fails. */
  lemma {:induction false} MergeSheetsPrefixNone(acc: Option<seq<Worksheet>>, fileName: string,
                                                 sheets: Sheets, k: nat, selected: Selection)
    requires k <= |sheets|
    requires MergeSheets(acc, fileName, sheets[..k], selected) == None
    ensures MergeSheets(acc, fileName, sheets, selected) == None
    decreases |sheets|
  {
    if k < |sheets| {
      var init := sheets[..|sheets| - 1];
      assert init[..k] == sheets[..k];
      MergeSheetsPrefixNone(acc, fileName, init, k, selected);
    } else {
      assert sheets[..k] == sheets;
    }
  }

  lemma {:induction false} MergeFilesPrefixNone(acc: Option<seq<Worksheet>>, files: FileData, k: nat, selected: Selection)
    requires k <= |files|
    requires MergeFiles(acc, files[..k], selected) == None
    ensures MergeFiles(acc, files, selected) == None
    decreases |files|
  {
    if k < |files| {
      var init := files[..|files| - 1];
      var (fileName, sheets) := files[|files| - 1];
      assert init[..k] == files[..k];
      MergeFilesPrefixNone(acc, init, k, selected);
      MergeSheetsNone(fileName, sheets, selected);
    } else {
      assert files[..k] == files;
    }
  }

  /** One worksheet per loaded (file, sheet) with a non-empty selection. */
  lemma {:induction false} MergeSheetsCount(acc: seq<Worksheet>, fileName: string, sheets: Sheets, selected: Selection)
    requires MergeSheets(Some(acc), fileName, sheets, selected).Some?
    ensures |MergeSheets(Some(acc), fileName, sheets, selected).value| == |acc| + CountSheets(fileName, sheets, selected)
    decreases |sheets|
  {
    if sheets != [] {
      var init := sheets[..|sheets| - 1];
      if MergeSheets(Some(acc), fileName, init, selected).Some? {
        MergeSheetsCount(acc, fileName, init, selected);
      }
    }
  }

  lemma {:induction false} MergeFilesCount(acc: seq<Worksheet>, files: FileData, selected: Selection)
    requires MergeFiles(Some(acc), files, selected).Some?
    ensures |MergeFiles(Some(acc), files, selected).value| == |acc| + CountSelected(files, selected)
    decreases |files|
  {
    if files != [] {
      var init := files[..|files| - 1];
      var (fileName, sheets) := files[|files| - 1];
      if MergeFiles(Some(acc), init, selected).None? {
        MergeSheetsNone(fileName, sheets, selected);
      } else {
        MergeFilesCount(acc, init, selected);
        MergeSheetsCount(MergeFiles(Some(acc), init, selected).value, fileName, sheets, selected);
      }
    }
  }

  /** A loaded (file, sheet) with its frame and its non-empty selection. */
  datatype Pick = Pick(file: string, sheet: string, table: Table, cols: seq<string>)

  /** The sheets of one loaded file whose selection is not empty, in order. */
  function SheetPicks(fileName: string, sheets: Sheets, selected: Selection): seq<Pick>
    decreases |sheets|
  {
    if sheets == [] then []
    else
      var (sheetName, t) := sheets[|sheets| - 1];
      var cols := SelectedFor(selected, fileName, sheetName);
      SheetPicks(fileName, sheets[..|sheets| - 1], selected) +
        (if cols != [] then [Pick(fileName, sheetName, t, cols)] else [])
  }

  /** Every loaded (file, sheet) whose selection is not empty, in the order
      of the loaded data. */
  function Picks(files: FileData, selected: Selection): seq<Pick>
    decreases |files|
  {
    if files == [] then []
    else
      var (fileName, sheets) := files[|files| - 1];
      Picks(files[..|files| - 1], selected) + SheetPicks(fileName, sheets, selected)
  }

  /** A pick is a loaded (file, sheet) with its frame and its selection,
      which is not empty. */
  predicate PickOf(files: FileData, selected: Selection, p: Pick) {
    exists i, j :: 0 <= i < |files| && 0 <= j < |files[i].1| &&
      p == Pick(files[i].0, files[i].1[j].0, files[i].1[j].1, SelectedFor(selected, files[i].0, files[i].1[j].0)) &&
      p.cols != []
  }

  lemma {:induction false} SheetPicksCount(fileName: string, sheets: Sheets, selected: Selection)
    ensures |SheetPicks(fileName, sheets, selected)| == CountSheets(fileName, sheets, selected)
    decreases |sheets|
  {
    if sheets != [] {
      SheetPicksCount(fileName, sheets[..|sheets| - 1], selected);
    }
  }

  /** The picks of one file's sheets are its sheets with a non-empty
      selection. */
  lemma {:induction false} SheetPicksMembers(fileName: string, sheets: Sheets, selected: Selection)
    ensures forall p :: p in SheetPicks(fileName, sheets, selected) <==> SheetPickOf(fileName, sheets, selected, p)
    decreases |sheets|
  {
    if sheets != [] {
      var n := |sheets| - 1;
      var init := sheets[..n];
      SheetPicksMembers(fileName, init, selected);
      forall p ensures p in SheetPicks(fileName, sheets, selected) <==> SheetPickOf(fileName, sheets, selected, p) {
        if p in SheetPicks(fileName, init, selected) {
          var j :| 0 <= j < |init| && p.cols != [] &&
            p == Pick(fileName, init[j].0, init[j].1, SelectedFor(selected, fileName, init[j].0));
          assert init[j] == sheets[j];
        }
        if SheetPickOf(fileName, sheets, selected, p) {
          var j :| 0 <= j < |sheets| && p.cols != [] &&
            p == Pick(fileName, sheets[j].0, sheets[j].1, SelectedFor(selected, fileName, sheets[j].0));
          if j < n {
            assert init[j] == sheets[j];
            assert SheetPickOf(fileName, init, selected, p);
          }
        }
      }
    }
  }

  predicate SheetPickOf(fileName: string, sheets: Sheets, selected: Selection, p: Pick) {
    exists j :: 0 <= j < |sheets| && p.cols != [] &&
      p == Pick(fileName, sheets[j].0, sheets[j].1, SelectedFor(selected, fileName, sheets[j].0))
  }

  /** The picks are exactly the loaded (file, sheet) pairs with a non-empty
      selection, and there are CountSelected of them. */
  lemma {:induction false} PicksMembers(files: FileData, selected: Selection)
    ensures |Picks(files, selected)| == CountSelected(files, selected)
    ensures forall p :: p in Picks(files, selected) <==> PickOf(files, selected, p)
    decreases |files|
  {
    if files != [] {
      var n := |files| - 1;
      var init := files[..n];
      PicksMembers(init, selected);
      SheetPicksMembers(files[n].0, files[n].1, selected);
      SheetPicksCount(files[n].0, files[n].1, selected);
      forall p ensures p in Picks(files, selected) <==> PickOf(files, selected, p) {
        if p in Picks(init, selected) {
          var i, j :| 0 <= i < |init| && 0 <= j < |init[i].1| &&
            p == Pick(init[i].0, init[i].1[j].0, init[i].1[j].1, SelectedFor(selected, init[i].0, init[i].1[j].0)) &&
            p.cols != [];
          assert init[i] == files[i];
        }
        if PickOf(files, selected, p) {
          var i, j :| 0 <= i < |files| && 0 <= j < |files[i].1| &&
            p == Pick(files[i].0, files[i].1[j].0, files[i].1[j].1, SelectedFor(selected, files[i].0, files[i].1[j].0)) &&
            p.cols != [];
          if i < n {
            assert init[i] == files[i];
            assert PickOf(init, selected, p);
          }
        }
      }
    }
  }

  /** The worksheet the merge writes for one pick, after the worksheets ws. */
  function PickWorksheet(p: Pick, ws: seq<Worksheet>): Worksheet
    requires AllPresent(p.cols, p.table.columns)
  {
    Worksheet(WorksheetName(WorksheetBaseName(p.file, p.sheet), Names(ws)), SheetRows(p.table, p.cols))
  }

  /** ws is acc followed by one worksheet per pick, in order: pick k's
      selected columns of its frame, under the name the dedupe loop gives
      its base name among all the worksheets before it. */
  predicate BuiltFrom(acc: seq<Worksheet>, picks: seq<Pick>, ws: seq<Worksheet>) {
    && |ws| == |acc| + |picks|
    && ws[..|acc|] == acc
    && forall k :: 0 <= k < |picks| ==>
      && AllPresent(picks[k].cols, picks[k].table.columns)
      && ws[|acc| + k] == PickWorksheet(picks[k], ws[..|acc| + k])
  }

  lemma BuiltFromStep(acc: seq<Worksheet>, picks: seq<Pick>, ws: seq<Worksheet>, p: Pick)
    requires BuiltFrom(acc, picks, ws)
    requires AllPresent(p.cols, p.table.columns)
    ensures BuiltFrom(acc, picks + [p], ws + [PickWorksheet(p, ws)])
  {
    var ws' := ws + [PickWorksheet(p, ws)];
    var picks' := picks + [p];
    assert ws'[..|acc|] == ws[..|acc|];
    forall k | 0 <= k < |picks'|
      ensures AllPresent(picks'[k].cols, picks'[k].table.columns)
      ensures ws'[|acc| + k] == PickWorksheet(picks'[k], ws'[..|acc| + k])
    {
      if k < |picks| {
        assert picks'[k] == picks[k];
        assert ws'[..|acc| + k] == ws[..|acc| + k];
      } else {
        assert ws'[..|acc| + k] == ws;
      }
    }
  }

  /** Merging one file's sheets appends, in order, one worksheet per sheet
      with a non-empty selection: that sheet's selected columns, under its
      deduplicated name. */
  lemma {:induction false} MergeSheetsBuilt(acc0: seq<Worksheet>, picks: seq<Pick>, acc: seq<Worksheet>,
                                            fileName: string, sheets: Sheets, selected: Selection)
    requires BuiltFrom(acc0, picks, acc)
    requires MergeSheets(Some(acc), fileName, sheets, selected).Some?
    ensures BuiltFrom(acc0, picks + SheetPicks(fileName, sheets, selected),
                      MergeSheets(Some(acc), fileName, sheets, selected).value)
    decreases |sheets|
  {
    if sheets == [] {
      assert picks + [] == picks;
    } else {
      var init := sheets[..|sheets| - 1];
      var (sheetName, t) := sheets[|sheets| - 1];
      var prefix := MergeSheets(Some(acc), fileName, init, selected);
      assert prefix.Some?;
      MergeSheetsBuilt(acc0, picks, acc, fileName, init, selected);
      var cols := SelectedFor(selected, fileName, sheetName);
      if cols != [] {
        var p := Pick(fileName, sheetName, t, cols);
        BuiltFromStep(acc0, picks + SheetPicks(fileName, init, selected), prefix.value, p);
        assert picks + SheetPicks(fileName, sheets, selected) ==
          (picks + SheetPicks(fileName, init, selected)) + [p];
      } else {
        assert MergeSheets(Some(acc), fileName, sheets, selected) == prefix;
        assert SheetPicks(fileName, sheets, selected) == SheetPicks(fileName, init, selected) + [];
        assert picks + SheetPicks(fileName, sheets, selected) == picks + SheetPicks(fileName, init, selected);
      }
    }
  }

  /** Merging all files appends one worksheet per pick, in order. */
  lemma {:induction false} MergeFilesBuilt(acc: seq<Worksheet>, files: FileData, selected: Selection)
    requires MergeFiles(Some(acc), files, selected).Some?
    ensures BuiltFrom(acc, Picks(files, selected), MergeFiles(Some(acc), files, selected).value)
    decreases |files|
  {
    if files == [] {
      assert acc[..|acc|] == acc;
    } else {
      var init := files[..|files| - 1];
      var (fileName, sheets) := files[|files| - 1];
      var prefix := MergeFiles(Some(acc), init, selected);
      if prefix.None? {
        MergeSheetsNone(fileName, sheets, selected);
      } else {
        MergeFilesBuilt(acc, init, selected);
        MergeSheetsBuilt(acc, Picks(init, selected), prefix.value, fileName, sheets, selected);
      }
    }
  }

  /** The names of the worksheets created so far: distinct, of the shape
      above, and within 31 characters for the first 999. */
  predicate GoodNames(ws: seq<Worksheet>) {
    && (forall i, j :: 0 <= i < j < |ws| ==> ws[i].name != ws[j].name)
    && (forall i :: 0 <= i < |ws| ==> NameShape(ws[i].name))
    && (forall i :: 0 <= i < |ws| && i < 999 ==> |ws[i].name| <= 31)
  }

  lemma MergeStepNames(acc: seq<Worksheet>, fileName: string, sheetName: string, t: Table, selected: Selection)
    requires GoodNames(acc)
    requires MergeStep(Some(acc), fileName, sheetName, t, selected).Some?
    ensures GoodNames(MergeStep(Some(acc), fileName, sheetName, t, selected).value)
  {
    var cols := SelectedFor(selected, fileName, sheetName);
    if cols != [] {
      var base := WorksheetBaseName(fileName, sheetName);
      WorksheetBaseNameSpec(fileName, sheetName);
      WorksheetNameSpec(base, Names(acc));
      var name := WorksheetName(base, Names(acc));
      assert forall i :: 0 <= i < |acc| ==> acc[i].name != name by {
        assert forall i :: 0 <= i < |acc| ==> Names(acc)[i] == acc[i].name;
      }
      GoodNamesAppend(acc, name, SheetRows(t, cols));
    }
  }

  lemma GoodNamesAppend(acc: seq<Worksheet>, name: string, rows: seq<seq<Cell>>)
    requires GoodNames(acc) && NameShape(name)
    requires forall i :: 0 <= i < |acc| ==> acc[i].name != name
    requires |acc| < 999 ==> |name| <= 31
    ensures GoodNames(acc + [Worksheet(name, rows)])
  {
    var r := acc + [Worksheet(name, rows)];
    assert forall i :: 0 <= i < |acc| ==> r[i] == acc[i];
  }

  lemma {:induction false} MergeSheetsNames(acc: seq<Worksheet>, fileName: string, sheets: Sheets, selected: Selection)
    requires GoodNames(acc)
    requires MergeSheets(Some(acc), fileName, sheets, selected).Some?
    ensures GoodNames(MergeSheets(Some(acc), fileName, sheets, selected).value)
    decreases |sheets|
  {
    if sheets != [] {
      var init := sheets[..|sheets| - 1];
      var (sheetName, t) := sheets[|sheets| - 1];
      if MergeSheets(Some(acc), fileName, init, selected).Some? {
        MergeSheetsNames(acc, fileName, init, selected);
        MergeStepNames(MergeSheets(Some(acc), fileName, init, selected).value, fileName, sheetName, t, selected);
      }
    }
  }

  lemma {:induction false} MergeFilesNames(acc: seq<Worksheet>, files: FileData, selected: Selection)
    requires GoodNames(acc)
    requires MergeFiles(Some(acc), files, selected).Some?
    ensures GoodNames(MergeFiles(Some(acc), files, selected).value)
    decreases |files|
  {
    if files != [] {
      var init := files[..|files| - 1];
      var (fileName, sheets) := files[|files| - 1];
      if MergeFiles(Some(acc), init, selected).None? {
        MergeSheetsNone(fileName, sheets, selected);
      } else {
        MergeFilesNames(acc, init, selected);
        MergeSheetsNames(MergeFiles(Some(acc), init, selected).value, fileName, sheets, selected);
      }
    }
  }

  /** Every selected column of every loaded sheet is a column of its frame. */
  predicate SheetsPresent(fileName: string, sheets: Sheets, selected: Selection) {
    forall j :: 0 <= j < |sheets| ==>
      AllPresent(SelectedFor(selected, fileName, sheets[j].0), sheets[j].1.columns)
  }

  predicate FilesPresent(files: FileData, selected: Selection) {
    forall i :: 0 <= i < |files| ==> SheetsPresent(files[i].0, files[i].1, selected)
  }

  /** One step of the merge loop goes on exactly when the loop had not
      failed and the sheet's selected columns are all in its frame. */
  lemma MergeStepSome(acc: Option<seq<Worksheet>>, fileName: string, sheetName: string,
                      t: Table, selected: Selection)
    ensures MergeStep(acc, fileName, sheetName, t, selected).Some? <==>
      acc.Some? && AllPresent(SelectedFor(selected, fileName, sheetName), t.columns)
  {
  }

  lemma SheetsPresentLast(fileName: string, sheets: Sheets, selected: Selection)
    requires sheets != []
    ensures var last := sheets[|sheets| - 1];
      SheetsPresent(fileName, sheets, selected) <==>
        && SheetsPresent(fileName, sheets[..|sheets| - 1], selected)
        && AllPresent(SelectedFor(selected, fileName, last.0), last.1.columns)
  {
    var init := sheets[..|sheets| - 1];
    assert forall j :: 0 <= j < |init| ==> init[j] == sheets[j];
  }

  lemma FilesPresentLast(files: FileData, selected: Selection)
    requires files != []
    ensures var last := files[|files| - 1];
      FilesPresent(files, selected) <==>
        FilesPresent(files[..|files| - 1], selected) && SheetsPresent(last.0, last.1, selected)
  {
    var init := files[..|files| - 1];
    assert forall i :: 0 <= i < |init| ==> init[i] == files[i];
  }

  lemma {:induction false} MergeSheetsSome(acc: seq<Worksheet>, fileName: string, sheets: Sheets, selected: Selection)
    ensures MergeSheets(Some(acc), fileName, sheets, selected).Some? <==> SheetsPresent(fileName, sheets, selected)
    decreases |sheets|
  {
    if sheets != [] {
      var init := sheets[..|sheets| - 1];
      var last := sheets[|sheets| - 1];
      var prefix := MergeSheets(Some(acc), fileName, init, selected);
      assert MergeSheets(Some(acc), fileName, sheets, selected) ==
        MergeStep(prefix, fileName, last.0, last.1, selected);
      MergeSheetsSome(acc, fileName, init, selected);
      MergeStepSome(prefix, fileName, last.0, last.1, selected);
      SheetsPresentLast(fileName, sheets, selected);
    }
  }

  lemma {:induction false} MergeFilesSome(acc: seq<Worksheet>, files: FileData, selected: Selection)
    ensures MergeFiles(Some(acc), files, selected).Some? <==> FilesPresent(files, selected)
    decreases |files|
  {
    if files != [] {
      var init := files[..|files| - 1];
      var last := files[|files| - 1];
      var prefix := MergeFiles(Some(acc), init, selected);
      assert MergeFiles(Some(acc), files, selected) == MergeSheets(prefix, last.0, last.1, selected);
      MergeFilesSome(acc, init, selected);
      FilesPresentLast(files, selected);
      if prefix.None? {
        MergeSheetsNone(last.0, last.1, selected);
      } else {
        MergeSheetsSome(prefix.value, last.0, last.1, selected);
      }
    }
  }

  /** The merge saves exactly when the save succeeds and every selected
      column exists in its frame; otherwise `df[cols]` raises. */
  lemma MergeSpecSaved(fileData: FileData, selected: Selection, saveOk: bool)
    ensures MergeSpec(fileData, selected, saveOk).Saved? <==> saveOk && FilesPresent(fileData, selected)
  {
    MergeFilesSome([], fileData, selected);
  }

  /** A saved workbook holds one worksheet per loaded (file, sheet) with a
      non-empty selection, then "Summary"; all its sheet names differ, and
      they fit Excel's 31 characters while there are at most 999 worksheets
      before the summary. */
  lemma MergeSpecSheets(fileData: FileData, selected: Selection, saveOk: bool)
    requires MergeSpec(fileData, selected, saveOk).Saved?
    ensures var wb := MergeSpec(fileData, selected, saveOk).workbook;
      && |wb| == CountSelected(fileData, selected) + 1
      && wb[|wb| - 1] == SummarySheet(selected)
      && Distinct(Names(wb))
      && (CountSelected(fileData, selected) <= 999 ==> forall i :: 0 <= i < |wb| ==> |wb[i].name| <= 31)
  {
    var ws := MergeFiles(Some([]), fileData, selected).value;
    MergeFilesCount([], fileData, selected);
    MergeFilesNames([], fileData, selected);
    var wb := ws + [SummarySheet(selected)];
    assert Names(wb) == Names(ws) + ["Summary"];
    assert '_' !in "Summary";
    forall i | 0 <= i < |ws| ensures ws[i].name != "Summary" {
      assert NameShape(ws[i].name);
    }
  }

  /** What a saved workbook holds: worksheet k is the k-th loaded (file,
      sheet) with a non-empty selection, restricted to those columns and
      named by the dedupe loop among the worksheets before it; the summary
      sheet comes last. */
  lemma MergeSpecContents(fileData: FileData, selected: Selection, saveOk: bool)
    requires MergeSpec(fileData, selected, saveOk).Saved?
    ensures var wb := MergeSpec(fileData, selected, saveOk).workbook;
      && |wb| == |Picks(fileData, selected)| + 1
      && BuiltFrom([], Picks(fileData, selected), wb[..|wb| - 1])
      && wb[|wb| - 1] == SummarySheet(selected)
  {
    var ws := MergeFiles(Some([]), fileData, selected).value;
    MergeFilesBuilt([], fileData, selected);
    var wb := ws + [SummarySheet(selected)];
    assert wb[..|wb| - 1] == ws;
  }

  /** The merge loop, with the names of the sheets created so far as the
      list the dedupe loop consults. */
  method ProcessAndMergeData(fileData: FileData, selected: Selection, saveOk: bool)
    returns (result: MergeResult)
    ensures result == MergeSpec(fileData, selected, saveOk)
  {
    var workbook: seq<Worksheet> := [];
    var worksheetCount := 0;
    var i := 0;
    while i < |fileData|
      invariant 0 <= i <= |fileData|
      invariant MergeFiles(Some([]), fileData[..i], selected) == Some(workbook)
      invariant worksheetCount == |workbook|
    {
      var fileName := fileData[i].0;
      var sheets := fileData[i].1;
      assert fileData[..i + 1][..i] == fileData[..i];
      var merged, count := MergeFileSheets(fileName, sheets, selected, workbook, worksheetCount);
      if merged.None? {
        MergeFilesPrefixNone(Some([]), fileData, i + 1, selected);
        return Failed;
      }
      workbook := merged.value;
      worksheetCount := count;
      i := i + 1;
    }
    assert fileData[..i] == fileData;
    var summary := WriteSummary(selected);
    if !saveOk {
      return Failed;
    }
    result := Saved(workbook + [summary]);
  }

  /** The inner loop over one file's sheets, appending to the worksheets
      created so far; None once a selected column is missing. */
  method MergeFileSheets(fileName: string, sheets: Sheets, selected: Selection,
                         start: seq<Worksheet>, startCount: nat)
    returns (merged: Option<seq<Worksheet>>, worksheetCount: nat)
    requires startCount == |start|
    ensures merged == MergeSheets(Some(start), fileName, sheets, selected)
    ensures merged.Some? ==> worksheetCount == |merged.value|
  {
    var workbook := start;
    worksheetCount := startCount;
    var j := 0;
    while j < |sheets|
      invariant 0 <= j <= |sheets|
      invariant MergeSheets(Some(start), fileName, sheets[..j], selected) == Some(workbook)
      invariant worksheetCount == |workbook|
    {
      var sheetName := sheets[j].0;
      var df := sheets[j].1;
      assert sheets[..j + 1][..j] == sheets[..j];
      var cols := GetOr(GetOr(selected, fileName, []), sheetName, []);
      if cols != [] {
        if !AllPresent(cols, df.columns) {
          MergeSheetsPrefixNone(Some(start), fileName, sheets, j + 1, selected);
          return None, worksheetCount;
        }
        var base := WorksheetBaseName(fileName, sheetName);
        var wsName := ChooseWorksheetName(base, Names(workbook));
        var worksheet := WriteWorksheet(wsName, df, cols);
        workbook := workbook + [worksheet];
        worksheetCount := worksheetCount + 1;
      }
      j := j + 1;
    }
    assert sheets[..j] == sheets;
    return Some(workbook), worksheetCount;
  }

  // ---------------------------------------------------------------------
  // The merge as file_processor.py writes it

  /** file_processor.py (and excel_extractor_cli.py) look the existing sheet
      names up with `workbook.get_sheets()`, which xlwt's Workbook does not
      provide. The lookup raises, and the function returns False, at the
      first (file, sheet) whose selection is not empty. */
  function MergeSheetsAsWritten(raised: bool, fileName: string, sheets: Sheets, selected: Selection): bool
    decreases |sheets|
  {
    if sheets == [] then raised
    else
      MergeSheetsAsWritten(raised, fileName, sheets[..|sheets| - 1], selected) ||
      SelectedFor(selected, fileName, sheets[|sheets| - 1].0) != []
  }

  function MergeFilesAsWritten(files: FileData, selected: Selection): bool
    decreases |files|
  {
    if files == [] then false
    else
      var (fileName, sheets) := files[|files| - 1];
      MergeSheetsAsWritten(MergeFilesAsWritten(files[..|files| - 1], selected), fileName, sheets, selected)
  }

  function MergeAsWritten(fileData: FileData, selected: Selection, saveOk: bool): MergeResult {
    if MergeFilesAsWritten(fileData, selected) || !saveOk then Failed else Saved([SummarySheet(selected)])
  }

  lemma {:induction false} MergeSheetsAsWrittenRaises(raised: bool, fileName: string, sheets: Sheets, selected: Selection)
    ensures MergeSheetsAsWritten(raised, fileName, sheets, selected) <==>
      raised || CountSheets(fileName, sheets, selected) > 0
    decreases |sheets|
  {
    if sheets != [] {
      MergeSheetsAsWrittenRaises(raised, fileName, sheets[..|sheets| - 1], selected);
    }
  }

  /** As written, a merge that selects anything fails. */
  lemma {:induction false} MergeAsWrittenFails(fileData: FileData, selected: Selection, saveOk: bool)
    ensures MergeFilesAsWritten(fileData, selected) <==> CountSelected(fileData, selected) > 0
    ensures CountSelected(fileData, selected) > 0 ==> MergeAsWritten(fileData, selected, saveOk) == Failed
    decreases |fileData|
  {
    if fileData != [] {
      var (fileName, sheets) := fileData[|fileData| - 1];
      MergeAsWrittenFails(fileData[..|fileData| - 1], selected, saveOk);
      MergeSheetsAsWrittenRaises(MergeFilesAsWritten(fileData[..|fileData| - 1], selected), fileName, sheets, selected);
    }
  }

  /** One file, one sheet, one selected text column: the written code
      returns False where the intended merge saves that worksheet and the
      summary. The column holds text because xlwt's `write` refuses numpy's
      integer, boolean and date scalars, which an all-numeric column would
      hand it; the model does not capture that refusal. */
  lemma MergeAsWrittenExample()
    ensures var t := Table(["Region"], [[Some(Text("North"))]]);
      var fd: FileData := [("sales.xlsx", [("Q1", t)])];
      var sel: Selection := [("sales.xlsx", [("Q1", ["Region"])])];
      && MergeAsWritten(fd, sel, true) == Failed
      && MergeSpec(fd, sel, true).Saved?
      && |MergeSpec(fd, sel, true).workbook| == 2
  {
    var t := Table(["Region"], [[Some(Text("North"))]]);
    var fd: FileData := [("sales.xlsx", [("Q1", t)])];
    var sel: Selection := [("sales.xlsx", [("Q1", ["Region"])])];
    ExampleSelected(sel);
    ExampleCount(fd, sel, t);
    MergeAsWrittenFails(fd, sel, true);
    assert SheetsPresent("sales.xlsx", [("Q1", t)], sel);
    assert FilesPresent(fd, sel);
    MergeSpecSaved(fd, sel, true);
    MergeSpecSheets(fd, sel, true);
  }

  lemma ExampleSelected(sel: Selection)
    requires sel == [("sales.xlsx", [("Q1", ["Region"])])]
    ensures SelectedFor(sel, "sales.xlsx", "Q1") == ["Region"]
  {
  }

  lemma ExampleCount(fd: FileData, sel: Selection, t: Table)
    requires fd == [("sales.xlsx", [("Q1", t)])]
    requires SelectedFor(sel, "sales.xlsx", "Q1") == ["Region"]
    ensures CountSelected(fd, sel) == 1
  {
    assert fd[..0] == [];
    var sheets := [("Q1", t)];
    assert sheets[..0] == [];
    assert CountSheets("sales.xlsx", sheets, sel) == 1;
  }
}
