/**
 * The wx front-end (excel_extractor_wx.py): the selection it starts from
 * after loading, its checkbox and select-all / deselect-all handlers (which,
 * unlike the Qt ones, never delete an entry), the totals it checks before
 * the output step, the output file-name rule, and its merge.
 */
module WxExtractor {
  import opened PyStrings
  import opened OrderedDicts
  import opened Tables
  import opened PyLists
  import opened Selections
  import opened FileProcessor

  // ---------------------------------------------------------------------
  // The selection after loading (process_zip_thread)

  /** An empty list for every sheet of a file, keys in sheet order. */
  function InitSheets(sheets: Sheets): Dict<seq<string>>
    decreases |sheets|
  {
    if sheets == [] then []
    else Put(InitSheets(sheets[..|sheets| - 1]), sheets[|sheets| - 1].0, [])
  }

  function InitialSelection(fd: FileData): Selection
    decreases |fd|
  {
    if fd == [] then []
    else
      var (f, sheets) := fd[|fd| - 1];
      Put(InitialSelection(fd[..|fd| - 1]), f, InitSheets(sheets))
  }

  lemma {:induction false} InitSheetsGet(sheets: Sheets, s: string)
    ensures Get(InitSheets(sheets), s) == if HasKey(sheets, s) then Some([]) else None
    ensures Valid(InitSheets(sheets))
    decreases |sheets|
  {
    if sheets != [] {
      var init := sheets[..|sheets| - 1];
      InitSheetsGet(init, s);
      HasKeyLast(sheets, s);
      PutValid(InitSheets(init), sheets[|sheets| - 1].0, []);
    }
  }

  /** Every list of a selection is empty. */
  predicate AllListsEmpty(sel: Selection) {
    forall e, e2 :: e in sel && e2 in e.1 ==> e2.1 == []
  }

  lemma {:induction false} InitSheetsEmpty(sheets: Sheets)
    ensures forall e :: e in InitSheets(sheets) ==> e.1 == []
    decreases |sheets|
  {
    if sheets != [] {
      InitSheetsEmpty(sheets[..|sheets| - 1]);
      PutMembers(InitSheets(sheets[..|sheets| - 1]), sheets[|sheets| - 1].0, []);
    }
  }

  lemma {:induction false} InitialSelectionGet(fd: FileData, f: string)
    requires Valid(fd)
    ensures Get(InitialSelection(fd), f) ==
      if HasKey(fd, f) then Some(InitSheets(Get(fd, f).value)) else None
    ensures ValidSelection(InitialSelection(fd))
    ensures AllListsEmpty(InitialSelection(fd))
    decreases |fd|
  {
    if fd != [] {
      var init := fd[..|fd| - 1];
      var (g, sheets) := fd[|fd| - 1];
      ValidInit(fd);
      assert fd == init + [(g, sheets)];
      InitialSelectionGet(init, f);
      GetAppend(init, g, sheets, f);
      InitSheetsGet(sheets, "");
      PutFileValid(InitialSelection(init), g, InitSheets(sheets));
      InitSheetsEmpty(sheets);
      PutMembers(InitialSelection(init), g, InitSheets(sheets));
    }
  }

  /** After loading, every loaded (file, sheet) and nothing else has an
      entry, and each entry is the empty list: nothing is selected. */
  lemma InitialSelectionAt(fd: FileData, f: string, s: string)
    requires Valid(fd)
    ensures Lookup2(InitialSelection(fd), f, s) == if Lookup2(fd, f, s).Some? then Some([]) else None
    ensures ValidSelection(InitialSelection(fd))
    ensures TotalSelected(InitialSelection(fd)) == 0
  {
    InitialSelectionGet(fd, f);
    if HasKey(fd, f) {
      InitSheetsGet(Get(fd, f).value, s);
    }
    var sel := InitialSelection(fd);
    TotalZero(sel);
    forall i, j | 0 <= i < |sel| && 0 <= j < |sel[i].1| ensures sel[i].1[j].1 == [] {
      assert sel[i] in sel && sel[i].1[j] in sel[i].1;
    }
  }

  /** Every loaded (file, sheet) has a list in the selection: the wx
      handlers index the selection without checking. */
  ghost predicate Covers(sel: Selection, fd: FileData) {
    forall f, s :: Lookup2(fd, f, s).Some? ==> Lookup2(sel, f, s).Some?
  }

  lemma InitialSelectionCovers(fd: FileData)
    requires Valid(fd)
    ensures Covers(InitialSelection(fd), fd) && ValidSelection(InitialSelection(fd))
  {
    forall f, s | Lookup2(fd, f, s).Some? ensures Lookup2(InitialSelection(fd), f, s).Some? {
      InitialSelectionAt(fd, f, s);
    }
    InitialSelectionAt(fd, "", "");
  }

  /** Setting one list keeps every list there. */
  lemma SetSheetCovers(sel: Selection, fd: FileData, f: string, s: string, cols: seq<string>)
    requires ValidSelection(sel) && Covers(sel, fd)
    ensures Covers(SetSheet(sel, f, s, cols), fd)
    ensures ValidSelection(SetSheet(sel, f, s, cols))
  {
    forall f', s' | Lookup2(fd, f', s').Some? ensures Lookup2(SetSheet(sel, f, s, cols), f', s').Some? {
      SetSheetAt(sel, f, s, cols, f', s');
    }
    SetSheetAt(sel, f, s, cols, f, s);
  }

  // ---------------------------------------------------------------------
  // on_column_checkbox

  /** The wx checkbox change: the list is toggled in place and stays
      there even when it becomes empty. */
  function WxToggle(sel: Selection, f: string, s: string, column: string, checked: bool): Selection {
    SetSheet(sel, f, s, Toggled(SelectedFor(sel, f, s), column, checked))
  }

  /** Only the one list changes; no key of the selection or of a file entry
      is added or dropped; lists stay free of duplicates. */
  lemma WxToggleAt(sel: Selection, f: string, s: string, column: string, checked: bool, f': string, s': string)
    requires ValidSelection(sel) && Lookup2(sel, f, s).Some?
    ensures Lookup2(WxToggle(sel, f, s, column, checked), f', s') ==
      if f' == f && s' == s then Some(Toggled(Lookup2(sel, f, s).value, column, checked))
      else Lookup2(sel, f', s')
    ensures Keys(WxToggle(sel, f, s, column, checked)) == Keys(sel)
    ensures Keys(GetOr(WxToggle(sel, f, s, column, checked), f', [])) == Keys(GetOr(sel, f', []))
    ensures NoDuplicates(sel) ==> NoDuplicates(WxToggle(sel, f, s, column, checked))
  {
    var cols := Toggled(SelectedFor(sel, f, s), column, checked);
    SetSheetAt(sel, f, s, cols, f', s');
    SetSheetKeys(sel, f, s, cols, f');
    if NoDuplicates(sel) {
      assert Distinct(cols) by {
        SelectedDistinct(sel, f, s);
        ToggledSpec(SelectedFor(sel, f, s), column, checked);
      }
      SetSheetNoDuplicates(sel, f, s, cols);
    }
  }

  // ---------------------------------------------------------------------
  // Output file name (on_generate_output)

  /** The name typed in, stripped; None (refused) when nothing is left;
      ".xls" appended unless it already ends so in any case. */
  function OutputFileName(typed: string): (r: Option<string>)
    ensures r.None? <==> AllSpace(typed)
    ensures r.Some? ==> StartsWith(r.value, Strip(typed)) && |r.value| <= |Strip(typed)| + 4
    ensures r.Some? ==> EndsWith(Lower(r.value), ".xls")
    ensures r.Some? && EndsWith(Lower(Strip(typed)), ".xls") ==> r.value == Strip(typed)
    ensures r.Some? && !EndsWith(Lower(Strip(typed)), ".xls") ==> r.value == Strip(typed) + ".xls"
  {
    var name := Strip(typed);
    assert name == [] <==> AllSpace(typed) by {
      StripBlank(typed);
    }
    if name == [] then None
    else if EndsWith(Lower(name), ".xls") then Some(name)
    else
      assert StartsWith(name + ".xls", name) && EndsWith(Lower(name + ".xls"), ".xls") by {
        AppendXls(name);
      }
      Some(name + ".xls")
  }

  lemma AppendXls(name: string)
    ensures StartsWith(name + ".xls", name)
    ensures EndsWith(Lower(name + ".xls"), ".xls")
  {
    var full := name + ".xls";
    assert full[..|name|] == name;
    LowerSlice(full, |name|);
    assert full[|name|..] == ".xls";
    var low := Lower(".xls");
    assert low == ".xls" by {
      assert |low| == 4;
      assert low[0] == LowerChar('.') == '.';
      assert low[1] == LowerChar('x') == 'x';
      assert low[2] == LowerChar('l') == 'l';
      assert low[3] == LowerChar('s') == 's';
    }
  }

  /** A name the rule produced passes the rule unchanged. */
  lemma OutputFileNameIdempotent(typed: string)
    requires OutputFileName(typed).Some?
    ensures OutputFileName(OutputFileName(typed).value) == OutputFileName(typed)
  {
    var name := Strip(typed);
    var r := OutputFileName(typed).value;
    StripSpec(typed);
    assert Trimmed(r) by {
      if r != name {
        assert r == name + ".xls";
        assert r[0] == name[0];
        assert r[|r| - 1] == 's';
      }
    }
    StripTrimmed(r);
    assert Strip(r) == r;
    assert !AllSpace(r) by {
      assert r[0] == name[0];
    }
    assert EndsWith(Lower(r), ".xls");
  }

  // ---------------------------------------------------------------------
  // The main window's state

  class WxExtractorApp {
    var fileData: FileData
    var selectedColumns: Selection

    constructor ()
      ensures fileData == [] && selectedColumns == []
    {
      fileData := [];
      selectedColumns := [];
    }

    /** The initialisation loop after loading. */
    method InitSelection()
      modifies this
      ensures selectedColumns == InitialSelection(fileData)
      ensures fileData == old(fileData)
      ensures Valid(fileData) ==> ValidSelection(selectedColumns) && Covers(selectedColumns, fileData)
    {
      selectedColumns := [];
      for i := 0 to |fileData|
        invariant fileData == old(fileData)
        invariant selectedColumns == InitialSelection(fileData[..i])
      {
        var f := fileData[i].0;
        var sheets := fileData[i].1;
        assert fileData[..i + 1][..i] == fileData[..i];
        ghost var before := selectedColumns;
        selectedColumns := Put(selectedColumns, f, []);
        for j := 0 to |sheets|
          invariant fileData == old(fileData)
          invariant selectedColumns == Put(before, f, InitSheets(sheets[..j]))
        {
          assert sheets[..j + 1][..j] == sheets[..j];
          PutPut(before, f, InitSheets(sheets[..j]), InitSheets(sheets[..j + 1]));
          selectedColumns := SetSheet(selectedColumns, f, sheets[j].0, []);
        }
        assert sheets[..|sheets|] == sheets;
      }
      assert fileData[..|fileData|] == fileData;
      if Valid(fileData) {
        InitialSelectionCovers(fileData);
      }
    }

    /** `on_column_checkbox`; the sheet's list must exist, as it does for
        every loaded sheet after initialisation. */
    method OnColumnCheckbox(fileName: string, sheetName: string, columnName: string, checked: bool)
      requires Lookup2(selectedColumns, fileName, sheetName).Some?
      modifies this
      ensures selectedColumns == WxToggle(old(selectedColumns), fileName, sheetName, columnName, checked)
      ensures fileData == old(fileData)
      ensures old(ValidSelection(selectedColumns) && Covers(selectedColumns, fileData)) ==>
        ValidSelection(selectedColumns) && Covers(selectedColumns, fileData)
    {
      var cols := GetOr(GetOr(selectedColumns, fileName, []), sheetName, []);
      if checked {
        if columnName !in cols {
          cols := cols + [columnName];
        }
      } else {
        if columnName in cols {
          cols := RemoveFirst(cols, columnName);
        }
      }
      if ValidSelection(selectedColumns) && Covers(selectedColumns, fileData) {
        SetSheetCovers(selectedColumns, fileData, fileName, sheetName, cols);
      }
      selectedColumns := SetSheet(selectedColumns, fileName, sheetName, cols);
    }

    /** `on_select_all`: the sheet's list becomes a copy of the frame's
        column list, in order. */
    method OnSelectAll(fileName: string, sheetName: string)
      requires HasKey(selectedColumns, fileName) && Lookup2(fileData, fileName, sheetName).Some?
      modifies this
      ensures fileData == old(fileData)
      ensures selectedColumns ==
        SetSheet(old(selectedColumns), fileName, sheetName, Lookup2(fileData, fileName, sheetName).value.columns)
      ensures old(ValidSelection(selectedColumns) && Covers(selectedColumns, fileData)) ==>
        ValidSelection(selectedColumns) && Covers(selectedColumns, fileData)
    {
      var allColumns := Lookup2(fileData, fileName, sheetName).value.columns;
      if ValidSelection(selectedColumns) && Covers(selectedColumns, fileData) {
        SetSheetCovers(selectedColumns, fileData, fileName, sheetName, allColumns);
      }
      selectedColumns := SetSheet(selectedColumns, fileName, sheetName, allColumns);
    }

    /** `on_deselect_all`: the sheet's list becomes empty and stays. */
    method OnDeselectAll(fileName: string, sheetName: string)
      requires HasKey(selectedColumns, fileName)
      modifies this
      ensures selectedColumns == SetSheet(old(selectedColumns), fileName, sheetName, [])
      ensures fileData == old(fileData)
      ensures old(ValidSelection(selectedColumns) && Covers(selectedColumns, fileData)) ==>
        ValidSelection(selectedColumns) && Covers(selectedColumns, fileData)
    {
      if ValidSelection(selectedColumns) && Covers(selectedColumns, fileData) {
        SetSheetCovers(selectedColumns, fileData, fileName, sheetName, []);
      }
      selectedColumns := SetSheet(selectedColumns, fileName, sheetName, []);
    }

    /** `on_continue_to_output`: refused exactly when every list is empty. */
    method OnContinueToOutput() returns (proceed: bool)
      ensures proceed <==> !NothingSelected(selectedColumns)
      ensures proceed <==> TotalSelected(selectedColumns) > 0
    {
      var totalSelected := TotalSelected(selectedColumns);
      TotalZero(selectedColumns);
      proceed := totalSelected != 0;
    }

    /** `process_and_merge_data`, the shared merge with the sheet names
        taken from the workbook's own list. */
    method ProcessAndMerge(saveOk: bool) returns (result: MergeResult)
      ensures result == MergeSpec(fileData, selectedColumns, saveOk)
    {
      result := ProcessAndMergeData(fileData, selectedColumns, saveOk);
    }
  }
}
