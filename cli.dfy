/**
 * The command-line front-end (excel_extractor_cli.py): the answer typed for
 * each sheet becomes that sheet's column selection, and `main` refuses to
 * merge when nothing was selected. Reading the answers, the archive and the
 * workbooks are parameters.
 */
module CliExtractor {
  import opened PyStrings
  import opened OrderedDicts
  import opened Tables
  import opened FileProcessor
  import Selections

  // ---------------------------------------------------------------------
  // The answer for one sheet

  /** Each comma-separated token with its surrounding whitespace removed. */
  function StripAll(tokens: seq<string>): (r: seq<string>)
    ensures |r| == |tokens|
  {
    if tokens == [] then [] else [Strip(tokens[0])] + StripAll(tokens[1..])
  }

  /** The non-blank tokens read as 1-based numbers and turned 0-based, with
      None when some non-blank token is not an integer (the ValueError case). */
  function ParseIndices(stripped: seq<string>): Option<seq<int>>
    decreases |stripped|
  {
    if stripped == [] then Some([])
    else
      var rest := ParseIndices(stripped[1..]);
      var t := stripped[0];
      if t == [] then rest
      else match ParseStripped(t)
        case None => None
        case Some(k) => if rest.None? then None else Some([k - 1] + rest.value)
  }

  /** The columns at the valid 0-based indices, in the order given, repeats
      kept; indices out of range are dropped. */
  function PickColumns(indices: seq<int>, columns: seq<string>): (r: seq<string>)
    ensures |r| <= |indices|
    ensures forall x :: x in r ==> x in columns
    decreases |indices|
  {
    if indices == [] then []
    else
      var rest := PickColumns(indices[1..], columns);
      var i := indices[0];
      if 0 <= i < |columns| then [columns[i]] + rest else rest
  }

  /** The selection a typed answer makes for a sheet with the given columns:
      "all" (in any case, with surrounding blanks) takes every column,
      "none" takes none, anything else is a comma-separated list of 1-based
      numbers, and a list with a non-number in it selects nothing. */
  function ParseSelection(typed: string, columns: seq<string>): (r: seq<string>)
    ensures forall x :: x in r ==> x in columns
    ensures Lower(Strip(typed)) == "all" ==> r == columns
    ensures Lower(Strip(typed)) == "none" ==> r == []
  {
    var selection := Lower(Strip(typed));
    if selection == "all" then columns
    else if selection == "none" then []
    else match ParseIndices(StripAll(Split(selection, ',')))
      case None => []
      case Some(indices) => PickColumns(indices, columns)
  }

  /** A non-blank stripped token that is not an integer. */
  predicate BadToken(t: string) {
    t != [] && ParseStripped(t).None?
  }

  /** The list fails to parse exactly when some non-blank token is not an
      integer. */
  lemma {:induction false} ParseIndicesNone(tokens: seq<string>)
    ensures ParseIndices(tokens).None? <==> exists i :: 0 <= i < |tokens| && BadToken(tokens[i])
    decreases |tokens|
  {
    if tokens != [] {
      var rest := tokens[1..];
      ParseIndicesNone(rest);
      if ParseIndices(tokens).None? {
        if !BadToken(tokens[0]) {
          var j :| 0 <= j < |rest| && BadToken(rest[j]);
          assert tokens[j + 1] == rest[j];
        }
      } else {
        forall i | 0 <= i < |tokens| ensures !BadToken(tokens[i]) {
          if i > 0 {
            assert tokens[i] == rest[i - 1];
          }
        }
      }
    }
  }

  /** A number list with a non-number in it (say "1, x") selects nothing,
      even when other entries are valid. */
  lemma ParseErrorSelectsNothing(typed: string, columns: seq<string>, i: nat)
    requires Lower(Strip(typed)) != "all" && Lower(Strip(typed)) != "none"
    requires i < |Split(Lower(Strip(typed)), ',')|
    requires BadToken(StripAll(Split(Lower(Strip(typed)), ','))[i])
    ensures ParseSelection(typed, columns) == []
  {
    ParseIndicesNone(StripAll(Split(Lower(Strip(typed)), ',')));
  }

  /** With every index in range, the pick is exactly the indexed columns. */
  lemma {:induction false} PickColumnsInRange(indices: seq<int>, columns: seq<string>)
    requires forall i :: 0 <= i < |indices| ==> 0 <= indices[i] < |columns|
    ensures |PickColumns(indices, columns)| == |indices|
    ensures forall i :: 0 <= i < |indices| ==> PickColumns(indices, columns)[i] == columns[indices[i]]
    decreases |indices|
  {
    if indices != [] {
      PickColumnsInRange(indices[1..], columns);
    }
  }

  /** The decimal numerals of ks, in order. */
  function Numerals(ks: seq<nat>): (r: seq<string>)
    ensures |r| == |ks|
    ensures forall i :: 0 <= i < |ks| ==> r[i] == NatToString(ks[i])
  {
    if ks == [] then [] else [NatToString(ks[0])] + Numerals(ks[1..])
  }

  /** The 0-based indices of the 1-based column numbers ks. */
  function Decremented(ks: seq<nat>): (r: seq<int>)
    ensures |r| == |ks|
    ensures forall i :: 0 <= i < |ks| ==> r[i] == (ks[i] as int) - 1
  {
    if ks == [] then [] else [(ks[0] as int) - 1] + Decremented(ks[1..])
  }

  /** The numerals of ks joined by commas: the answer that picks the columns
      numbered ks. */
  function NumberList(ks: seq<nat>): string {
    Join([','], Numerals(ks))
  }

  /** Typing the numbers of some columns, comma-separated, selects exactly
      those columns in that order (repeats kept, numbers beyond the last
      column dropped). */
  lemma NumberListSelects(ks: seq<nat>, columns: seq<string>)
    ensures ParseSelection(NumberList(ks), columns) == PickColumns(Decremented(ks), columns)
  {
    if ks == [] {
      assert NumberList(ks) == "";
      assert Strip("") == "" by {
        StripBlank("");
      }
      assert Lower("") == "";
      assert StripAll(Split("", ',')) == [""];
      return;
    }
    var parts := Numerals(ks);
    var text := NumberList(ks);
    assert Lower(Strip(text)) == text && text != "all" && text != "none" by {
      NumberListPlain(ks);
    }
    assert ParseIndices(StripAll(Split(text, ','))) == Some(Decremented(ks)) by {
      assert forall p :: p in parts ==> ',' !in p;
      JoinSplit(parts, ',');
      ParseNumbers(ks);
    }
  }

  /** The number list has no surrounding blanks, no upper case, and starts
      with a digit. */
  lemma NumberListPlain(ks: seq<nat>)
    requires ks != []
    ensures var text := NumberList(ks);
      |text| >= 1 && IsDigit(text[0]) && Strip(text) == text && Lower(text) == text
  {
    var parts := Numerals(ks);
    assert forall p :: p in parts ==> |p| >= 1 && AllDigits(p);
    DigitEnds(parts);
    StripTrimmed(NumberList(ks));
    NumberListLower(parts);
  }

  lemma NumberListLower(parts: seq<string>)
    requires forall p :: p in parts ==> AllDigits(p)
    ensures Lower(Join([','], parts)) == Join([','], parts)
  {
    var text := Join([','], parts);
    JoinChars(parts, ',');
    forall c | c in text ensures c == ',' || IsDigit(c) {
      if c != ',' {
        var p :| p in parts && c in p;
      }
    }
    LowerDigits(text);
  }

  lemma DigitEnds(parts: seq<string>)
    requires parts != [] && forall p :: p in parts ==> |p| >= 1 && AllDigits(p)
    ensures var text := Join([','], parts); |text| >= 1 && IsDigit(text[0]) && Trimmed(text)
  {
    JoinEnds(parts, ',');
    var last := parts[|parts| - 1];
    assert last in parts;
  }

  lemma {:induction false} ParseNumbers(ks: seq<nat>)
    ensures StripAll(Numerals(ks)) == Numerals(ks)
    ensures ParseIndices(Numerals(ks)) == Some(Decremented(ks))
    decreases |ks|
  {
    if ks != [] {
      var h := NatToString(ks[0]);
      var t := Numerals(ks[1..]);
      assert Numerals(ks) == [h] + t;
      assert Decremented(ks) == [(ks[0] as int) - 1] + Decremented(ks[1..]);
      ParseNumbers(ks[1..]);
      ParseNatToString(ks[0]);
      StripAllCons(h, t);
      ParseIndicesCons(h, ks[0], t);
    }
  }

  lemma StripAllCons(t: string, rest: seq<string>)
    requires Strip(t) == t
    ensures StripAll([t] + rest) == [t] + StripAll(rest)
  {
    assert ([t] + rest)[0] == t;
    assert ([t] + rest)[1..] == rest;
  }

  lemma ParseIndicesCons(t: string, k: int, rest: seq<string>)
    requires ParseStripped(t) == Some(k) && ParseIndices(rest).Some?
    ensures ParseIndices([t] + rest) == Some([k - 1] + ParseIndices(rest).value)
  {
    assert ([t] + rest)[0] == t;
    assert ([t] + rest)[1..] == rest;
  }

  /** Every character of the joined text is the separator or comes from a
      part. */
  lemma {:induction false} JoinChars(parts: seq<string>, sep: char)
    ensures forall c :: c in Join([sep], parts) ==> c == sep || exists p :: p in parts && c in p
    decreases |parts|
  {
    if |parts| > 1 {
      JoinChars(parts[1..], sep);
      assert forall p :: p in parts[1..] ==> p in parts;
    }
  }

  /** Digits and commas have no upper case. */
  lemma LowerDigits(text: string)
    requires forall c :: c in text ==> c == ',' || IsDigit(c)
    ensures Lower(text) == text
  {
    assert forall i :: 0 <= i < |text| ==> text[i] in text;
  }

  // ---------------------------------------------------------------------
  // interactive_column_selection

  /** The selection for one file, one answer per sheet, in sheet order;
      `answer(f, s)` is what is typed for sheet s of file f. */
  function CliSheets(f: string, sheets: Sheets, answer: (string, string) -> string): Dict<seq<string>>
    decreases |sheets|
  {
    if sheets == [] then []
    else
      var (s, t) := sheets[|sheets| - 1];
      Put(CliSheets(f, sheets[..|sheets| - 1], answer), s, ParseSelection(answer(f, s), t.columns))
  }

  function CliSelection(fd: FileData, answer: (string, string) -> string): Selection
    decreases |fd|
  {
    if fd == [] then []
    else
      var (f, sheets) := fd[|fd| - 1];
      Put(CliSelection(fd[..|fd| - 1], answer), f, CliSheets(f, sheets, answer))
  }

  lemma {:induction false} CliSheetsGet(f: string, sheets: Sheets, answer: (string, string) -> string, s: string)
    requires Valid(sheets)
    ensures Get(CliSheets(f, sheets, answer), s) ==
      if HasKey(sheets, s) then Some(ParseSelection(answer(f, s), Get(sheets, s).value.columns)) else None
    ensures Valid(CliSheets(f, sheets, answer))
    decreases |sheets|
  {
    if sheets != [] {
      var init := sheets[..|sheets| - 1];
      var (s', t) := sheets[|sheets| - 1];
      ValidInit(sheets);
      assert sheets == init + [(s', t)];
      CliSheetsGet(f, init, answer, s);
      GetAppend(init, s', t, s);
      PutValid(CliSheets(f, init, answer), s', ParseSelection(answer(f, s'), t.columns));
    }
  }

  lemma {:induction false} CliSelectionGet(fd: FileData, answer: (string, string) -> string, f: string)
    requires ValidFileData(fd)
    ensures Get(CliSelection(fd, answer), f) ==
      if HasKey(fd, f) then Some(CliSheets(f, Get(fd, f).value, answer)) else None
    ensures ValidSelection(CliSelection(fd, answer))
    decreases |fd|
  {
    if fd != [] {
      var init := fd[..|fd| - 1];
      var (g, sheets) := fd[|fd| - 1];
      ValidInit(fd);
      assert fd == init + [(g, sheets)];
      assert ValidFileData(init) by {
        forall i | 0 <= i < |init| ensures Valid(init[i].1) {
          assert init[i] == fd[i];
        }
      }
      CliSelectionGet(init, answer, f);
      GetAppend(init, g, sheets, f);
      assert Valid(sheets) by {
        assert fd[|fd| - 1] == (g, sheets);
      }
      CliSheetsGet(g, sheets, answer, "");
      Selections.PutFileValid(CliSelection(init, answer), g, CliSheets(g, sheets, answer));
    }
  }

  /** Every loaded (file, sheet), and nothing else, gets the selection its
      answer makes. */
  lemma CliSelectionAt(fd: FileData, answer: (string, string) -> string, f: string, s: string)
    requires ValidFileData(fd)
    ensures Lookup2(CliSelection(fd, answer), f, s) ==
      if Lookup2(fd, f, s).Some? then Some(ParseSelection(answer(f, s), Lookup2(fd, f, s).value.columns)) else None
    ensures ValidSelection(CliSelection(fd, answer))
  {
    CliSelectionGet(fd, answer, f);
    if HasKey(fd, f) {
      var i := HasKeyAt(fd, f);
      GetAt(fd, i);
      CliSheetsGet(f, Get(fd, f).value, answer, s);
    }
  }

  /** The inner loop: one prompt per sheet of a file. */
  method AskSheets(f: string, sheets: Sheets, answer: (string, string) -> string)
    returns (fileSelection: Dict<seq<string>>)
    ensures fileSelection == CliSheets(f, sheets, answer)
  {
    fileSelection := [];
    for j := 0 to |sheets|
      invariant fileSelection == CliSheets(f, sheets[..j], answer)
    {
      assert sheets[..j + 1][..j] == sheets[..j];
      var sheetName := sheets[j].0;
      var columns := sheets[j].1.columns;
      var typed := answer(f, sheetName);
      fileSelection := Put(fileSelection, sheetName, ParseSelection(typed, columns));
    }
    assert sheets[..|sheets|] == sheets;
  }

  /** The loop over files and sheets, and the total it reports. */
  method InteractiveColumnSelection(fileData: FileData, answer: (string, string) -> string)
    returns (selectedColumns: Selection, totalSelected: nat)
    ensures selectedColumns == CliSelection(fileData, answer)
    ensures totalSelected == TotalSelected(selectedColumns)
  {
    selectedColumns := [];
    for i := 0 to |fileData|
      invariant selectedColumns == CliSelection(fileData[..i], answer)
    {
      assert fileData[..i + 1][..i] == fileData[..i];
      var f := fileData[i].0;
      var fileSelection := AskSheets(f, fileData[i].1, answer);
      selectedColumns := Put(selectedColumns, f, fileSelection);
    }
    assert fileData[..|fileData|] == fileData;
    totalSelected := TotalSelected(selectedColumns);
  }

  // ---------------------------------------------------------------------
  // main

  /** `main` once the arguments are parsed: 1 when the archive is missing,
      yields no Excel file, yields no data, or nothing is selected;
      otherwise the merge decides between 0 and 1. */
  method RunCli(zipExists: bool, extractedFiles: seq<string>, fileData: FileData,
                answer: (string, string) -> string, saveOk: bool)
    returns (exitCode: int)
    ensures exitCode == 0 || exitCode == 1
    ensures exitCode == 0 <==>
      && zipExists && extractedFiles != [] && fileData != []
      && TotalSelected(CliSelection(fileData, answer)) > 0
      && MergeSpec(fileData, CliSelection(fileData, answer), saveOk).Saved?
    ensures NothingSelected(CliSelection(fileData, answer)) ==> exitCode == 1
  {
    TotalZero(CliSelection(fileData, answer));
    if !zipExists {
      return 1;
    }
    if extractedFiles == [] {
      return 1;
    }
    if fileData == [] {
      return 1;
    }
    var selectedColumns, totalSelected := InteractiveColumnSelection(fileData, answer);
    if totalSelected == 0 {
      return 1;
    }
    var result := ProcessAndMergeData(fileData, selectedColumns, saveOk);
    exitCode := if result.Saved? then 0 else 1;
  }
}
