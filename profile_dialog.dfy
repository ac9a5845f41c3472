/**
 * The profile-management dialog (profile_dialog.py): a fresh name for a new
 * profile, validation and rebuilding of the edited profile on save, the
 * watch-folder list that refuses duplicates, the pattern rows added by hand
 * or from the current selection, and the comma-separated column lists the
 * pattern table shows and reads back. The widgets are fields holding what
 * they display; message boxes become outcome values.
 */
module ProfileDialogs {
  import opened PyStrings
  import opened OrderedDicts
  import opened Tables
  import opened UniqueNames
  import opened PyLists
  import opened Profiles

  // ---------------------------------------------------------------------
  // Column lists as the pattern table shows them

  /** The tokens with surrounding whitespace removed, blank ones dropped. */
  function CleanTokens(tokens: seq<string>): (r: seq<string>)
    ensures |r| <= |tokens|
    ensures forall c :: c in r ==> c != [] && Trimmed(c)
  {
    if tokens == [] then []
    else
      var t := Strip(tokens[0]);
      StrippedToken(tokens[0]);
      (if t == [] then [] else [t]) + CleanTokens(tokens[1..])
  }

  /** Tokens without a comma give entries without one. */
  lemma {:induction false} CleanTokensCommaFree(tokens: seq<string>)
    requires forall t :: t in tokens ==> ',' !in t
    ensures forall c :: c in CleanTokens(tokens) ==> ',' !in c
  {
    if tokens != [] {
      assert tokens[0] in tokens;
      assert forall x :: x in tokens[1..] ==> x in tokens;
      StrippedToken(tokens[0]);
      CleanTokensCommaFree(tokens[1..]);
    }
  }

  /** A stripped token has no surrounding blanks and no character the
      token lacked. */
  lemma StrippedToken(token: string)
    ensures Trimmed(Strip(token))
    ensures ',' !in token ==> ',' !in Strip(token)
  {
    StripSpec(token);
    StripChars(token);
  }

  /** The column list typed into a pattern row: comma-separated, each entry
      trimmed, blank entries dropped, order kept. */
  function ParseColumns(text: string): (r: seq<string>)
    ensures forall c :: c in r ==> c != [] && Trimmed(c) && ',' !in c
  {
    CleanTokensCommaFree(Split(text, ','));
    CleanTokens(Split(text, ','))
  }

  /** `", ".join(columns)`: how the table displays a column list. */
  function JoinColumns(columns: seq<string>): string {
    Join(", ", columns)
  }

  /** A column name that survives display and parsing unchanged. */
  predicate CleanColumn(c: string) {
    c != [] && Trimmed(c) && ',' !in c
  }

  predicate CleanColumns(columns: seq<string>) {
    forall c :: c in columns ==> CleanColumn(c)
  }

  /** Each column with one leading space, as it follows a comma on display. */
  function Spaced(columns: seq<string>): (r: seq<string>)
    ensures |r| == |columns|
    ensures forall i :: 0 <= i < |columns| ==> r[i] == " " + columns[i]
  {
    if columns == [] then [] else [" " + columns[0]] + Spaced(columns[1..])
  }

  lemma {:induction false} SpacedJoin(columns: seq<string>)
    requires columns != []
    ensures " " + JoinColumns(columns) == Join([','], Spaced(columns))
    decreases |columns|
  {
    if |columns| > 1 {
      SpacedJoin(columns[1..]);
      assert " " + JoinColumns(columns) == (" " + columns[0]) + [','] + (" " + JoinColumns(columns[1..]));
    }
  }

  /** The displayed list split at the commas, before stripping. */
  lemma DisplayedTokens(columns: seq<string>)
    requires |columns| >= 2
    ensures JoinColumns(columns) == Join([','], [columns[0]] + Spaced(columns[1..]))
  {
    SpacedJoin(columns[1..]);
    assert JoinColumns(columns) == columns[0] + [','] + (" " + JoinColumns(columns[1..]));
  }

  lemma StripSpaced(c: string)
    requires c != [] && Trimmed(c)
    ensures Strip(" " + c) == c
  {
    assert (" " + c)[1..] == c;
    assert TrimStart(" " + c) == TrimStart(c);
    StripTrimmed(c);
  }

  /** A token that strips to a non-blank name contributes that name. */
  lemma CleanTokensCons(t: string, c: string, rest: seq<string>)
    requires c != [] && Strip(t) == c
    ensures CleanTokens([t] + rest) == [c] + CleanTokens(rest)
  {
    assert ([t] + rest)[0] == t;
    assert ([t] + rest)[1..] == rest;
  }

  lemma {:induction false} CleanSpaced(columns: seq<string>)
    requires CleanColumns(columns)
    ensures CleanTokens(Spaced(columns)) == columns
    decreases |columns|
  {
    if columns != [] {
      var first := columns[0];
      var tail := columns[1..];
      assert columns == [first] + tail;
      assert Spaced(columns) == [" " + first] + Spaced(tail);
      assert first in columns;
      assert forall c :: c in tail ==> c in columns;
      CleanSpaced(tail);
      StripSpaced(first);
      CleanTokensCons(" " + first, first, Spaced(tail));
    }
  }

  /** Spacing comma-free names keeps them comma-free. */
  lemma SpacedNoComma(columns: seq<string>)
    requires forall c :: c in columns ==> ',' !in c
    ensures forall p :: p in Spaced(columns) ==> ',' !in p
  {
    forall p | p in Spaced(columns) ensures ',' !in p {
      var i :| 0 <= i < |columns| && p == Spaced(columns)[i];
      assert columns[i] in columns;
      assert p == " " + columns[i];
    }
  }

  /** Showing a list of clean column names and reading the text back gives
      the same list. */
  lemma ParseJoinedColumns(columns: seq<string>)
    requires CleanColumns(columns)
    ensures ParseColumns(JoinColumns(columns)) == columns
  {
    if |columns| == 0 {
    } else if |columns| == 1 {
      assert columns[0] in columns;
      SplitNoSep(columns[0], ',');
      StripTrimmed(columns[0]);
    } else {
      var first := columns[0];
      var tail := columns[1..];
      assert columns == [first] + tail;
      assert first in columns;
      assert forall c :: c in tail ==> c in columns;
      var parts := [first] + Spaced(tail);
      assert Split(JoinColumns(columns), ',') == parts by {
        DisplayedTokens(columns);
        SpacedNoComma(tail);
        JoinSplit(parts, ',');
      }
      StripTrimmed(first);
      CleanTokensCons(first, first, Spaced(tail));
      CleanSpaced(tail);
    }
  }

  /** What the table shows for a saved pattern parses back to the saved
      list: loading a profile into the dialog and saving it again keeps its
      column lists. */
  lemma ParseColumnsRedisplayed(text: string)
    ensures ParseColumns(JoinColumns(ParseColumns(text))) == ParseColumns(text)
  {
    ParseJoinedColumns(ParseColumns(text));
  }

  /** A displayed list of clean names has no surrounding blanks. */
  lemma JoinColumnsTrimmed(columns: seq<string>)
    requires columns != [] && CleanColumns(columns)
    ensures Strip(JoinColumns(columns)) == JoinColumns(columns)
  {
    var first := columns[0];
    var last := columns[|columns| - 1];
    assert first in columns && last in columns;
    if |columns| == 1 {
      assert JoinColumns(columns) == first;
    } else {
      JoinedColumnsEnds(columns);
    }
    StripTrimmed(JoinColumns(columns));
  }

  /** A displayed list of two or more names starts with the first name's
      first character and ends with the last name's last character. */
  lemma JoinedColumnsEnds(columns: seq<string>)
    requires |columns| >= 2 && columns[0] != [] && columns[|columns| - 1] != []
    ensures var text := JoinColumns(columns);
      |text| >= 1 && text[0] == columns[0][0] && text[|text| - 1] == columns[|columns| - 1][|columns[|columns| - 1]| - 1]
  {
    DisplayedTokens(columns);
    var parts := [columns[0]] + Spaced(columns[1..]);
    assert parts[|parts| - 1] == " " + columns[|columns| - 1];
    assert forall p :: p in parts ==> |p| >= 1;
    JoinEnds(parts, ',');
  }

  // ---------------------------------------------------------------------
  // Rebuilding the profile from the form

  /** A pattern-table row: either cell may be missing. */
  datatype PatternRow = PatternRow(pattern: Option<string>, columnsText: Option<string>)

  /** The entry one row contributes on save, if any: both cells present, the
      stripped pattern non-empty and the parsed column list non-empty. */
  function RowEntry(row: PatternRow): (r: Option<ColumnPattern>)
    ensures r.Some? ==> r.value.0 != [] && r.value.1 != [] && CleanColumns(r.value.1)
  {
    if row.pattern.Some? && row.columnsText.Some? then
      var pattern := Strip(row.pattern.value);
      var columns := ParseColumns(Strip(row.columnsText.value));
      if pattern != [] && columns != [] then Some((pattern, columns)) else None
    else None
  }

  /** A row whose texts are already stripped contributes them as they are. */
  lemma RowEntryStripped(pattern: string, text: string, columns: seq<string>)
    requires pattern != [] && Strip(pattern) == pattern
    requires Strip(text) == text && ParseColumns(text) == columns && columns != []
    ensures RowEntry(PatternRow(Some(pattern), Some(text))) == Some((pattern, columns))
  {
  }

  /** The `column_patterns` rebuilt from the table, row by row. */
  function RebuiltPatterns(rows: seq<PatternRow>): (r: seq<ColumnPattern>)
    ensures |r| <= |rows|
    ensures forall e :: e in r ==> e.0 != [] && e.1 != [] && CleanColumns(e.1)
  {
    if rows == [] then []
    else
      var init := RebuiltPatterns(rows[..|rows| - 1]);
      var entry := RowEntry(rows[|rows| - 1]);
      if entry.Some? then
        assert forall e :: e in init + [entry.value] ==> e in init || e == entry.value;
        init + [entry.value]
      else init
  }

  /** The `watch_folders` rebuilt from the list: its non-empty entries in
      order. */
  function KeptFolders(items: seq<string>): (r: seq<string>)
    ensures forall x :: x in r <==> x in items && x != []
    ensures Distinct(items) ==> Distinct(r)
  {
    if items == [] then []
    else
      var init := KeptFolders(items[..|items| - 1]);
      var x := items[|items| - 1];
      assert forall y :: y in items <==> y in items[..|items| - 1] || y == x;
      assert Distinct(items) ==> x !in items[..|items| - 1] && Distinct(items[..|items| - 1]);
      if x != [] then init + [x] else init
  }

  /** The rows a profile is shown with (`load_profile_details`): one per
      pattern, its columns joined for display. */
  function DisplayedRows(patterns: seq<ColumnPattern>): (r: seq<PatternRow>)
    ensures |r| == |patterns|
    ensures forall i :: 0 <= i < |patterns| ==>
      r[i] == PatternRow(Some(patterns[i].0), Some(JoinColumns(patterns[i].1)))
  {
    if patterns == [] then []
    else
      var (p, columns) := patterns[|patterns| - 1];
      DisplayedRows(patterns[..|patterns| - 1]) + [PatternRow(Some(p), Some(JoinColumns(columns)))]
  }

  /** A pattern list the rebuild gives back unchanged: what the save itself
      produces. */
  predicate CleanPatterns(patterns: seq<ColumnPattern>) {
    forall i :: 0 <= i < |patterns| ==>
      && patterns[i].0 != [] && Trimmed(patterns[i].0) && patterns[i].1 != []
      && CleanColumns(patterns[i].1)
  }

  /** The row showing one clean entry contributes that entry on save. */
  lemma DisplayedRowEntry(p: string, cols: seq<string>)
    requires p != [] && Trimmed(p) && cols != [] && CleanColumns(cols)
    ensures RowEntry(PatternRow(Some(p), Some(JoinColumns(cols)))) == Some((p, cols))
  {
    var text := JoinColumns(cols);
    assert Strip(p) == p by {
      StripTrimmed(p);
    }
    assert Strip(text) == text by {
      JoinColumnsTrimmed(cols);
    }
    assert ParseColumns(text) == cols by {
      ParseJoinedColumns(cols);
    }
    RowEntryStripped(p, text, cols);
  }

  /** Showing a clean pattern list and saving it again changes nothing. */
  lemma {:induction false} RebuildDisplayed(patterns: seq<ColumnPattern>)
    requires CleanPatterns(patterns)
    ensures RebuiltPatterns(DisplayedRows(patterns)) == patterns
    decreases |patterns|
  {
    if patterns != [] {
      var n := |patterns|;
      var init := patterns[..n - 1];
      var e := patterns[n - 1];
      assert patterns == init + [e];
      assert CleanPatterns(init) by {
        forall i | 0 <= i < |init| ensures init[i] == patterns[i] { }
      }
      RebuildDisplayed(init);
      var rows := DisplayedRows(patterns);
      assert rows[..n - 1] == DisplayedRows(init);
      DisplayedRowEntry(e.0, e.1);
      assert rows[n - 1] == PatternRow(Some(e.0), Some(JoinColumns(e.1)));
    }
  }

  // ---------------------------------------------------------------------
  // "Use Current Selection"

  /** The pattern and column texts `use_current_selection` fills in, when
      the chosen file and sheet have a selection. */
  function UseCurrentSelection(current: Selection, fileName: string, sheetName: string): (r: Option<(string, string)>)
    ensures r.Some? <==> Lookup2(current, fileName, sheetName).Some?
    ensures r.Some? ==> r.value.0 == FilePattern(fileName, sheetName)
  {
    match Lookup2(current, fileName, sheetName)
    case None => None
    case Some(columns) => Some((FilePattern(fileName, sheetName), JoinColumns(columns)))
  }

  lemma FilePatternTrimmed(fileName: string, sheetName: string)
    requires Trimmed(sheetName)
    ensures Strip(FilePattern(fileName, sheetName)) == FilePattern(fileName, sheetName)
  {
    var p := FilePattern(fileName, sheetName);
    assert p[0] == 'f';
    if sheetName == [] {
      assert p[|p| - 1] == ':';
    } else {
      assert p[|p| - 1] == sheetName[|sheetName| - 1];
    }
    StripTrimmed(p);
  }

  /** The row built from a clean (file, sheet, columns) choice, once saved,
      names that file and sheet and lists exactly those columns. */
  lemma SelectedRowEntry(fileName: string, sheetName: string, columns: seq<string>)
    requires columns != [] && CleanColumns(columns)
    requires Trimmed(sheetName)
    ensures RowEntry(PatternRow(Some(Strip(FilePattern(fileName, sheetName))), Some(Strip(JoinColumns(columns))))) ==
      Some((FilePattern(fileName, sheetName), columns))
  {
    var pattern := FilePattern(fileName, sheetName);
    var text := JoinColumns(columns);
    assert Strip(pattern) == pattern by {
      FilePatternTrimmed(fileName, sheetName);
    }
    assert Strip(text) == text by {
      JoinColumnsTrimmed(columns);
    }
    assert ParseColumns(text) == columns by {
      ParseJoinedColumns(columns);
    }
    RowEntryStripped(pattern, text, columns);
  }

  /** Filling the row from the current selection and saving it gives back
      the entry (`file:F|sheet:S`, the selected columns), provided the sheet
      name has no surrounding blanks and the column names are clean;
      FilePatternRoundTrip then says which sheets that entry selects. */
  lemma SelectionRowRoundTrip(current: Selection, fileName: string, sheetName: string)
    requires Lookup2(current, fileName, sheetName).Some?
    requires var columns := Lookup2(current, fileName, sheetName).value;
      columns != [] && CleanColumns(columns)
    requires Trimmed(sheetName)
    ensures var texts := UseCurrentSelection(current, fileName, sheetName).value;
      RowEntry(PatternRow(Some(Strip(texts.0)), Some(Strip(texts.1)))) ==
        Some((FilePattern(fileName, sheetName), Lookup2(current, fileName, sheetName).value))
  {
    var columns := Lookup2(current, fileName, sheetName).value;
    SelectedRowEntry(fileName, sheetName, columns);
  }

  // ---------------------------------------------------------------------
  // Loops of the dialog that change nothing

  /** `existing_names`, collected from the profile list. */
  method NameSet(names: seq<string>) returns (existing: set<string>)
    ensures existing == Elems(names)
  {
    existing := {};
    for i := 0 to |names|
      invariant existing == Elems(names[..i])
    {
      assert Elems(names[..i + 1]) == Elems(names[..i]) + {names[i]};
      existing := existing + {names[i]};
    }
    assert names[..|names|] == names;
  }

  /** The scan of a list for an entry equal to x. */
  method IsListed(items: seq<string>, x: string) returns (found: bool)
    ensures found <==> x in items
  {
    for i := 0 to |items|
      invariant x !in items[..i]
    {
      if items[i] == x {
        return true;
      }
      assert items[..i + 1] == items[..i] + [items[i]];
    }
    assert items[..|items|] == items;
    return false;
  }

  /** The row loop of `on_save_profile`. */
  method RebuildPatterns(rows: seq<PatternRow>) returns (patterns: seq<ColumnPattern>)
    ensures patterns == RebuiltPatterns(rows)
  {
    patterns := [];
    for i := 0 to |rows|
      invariant patterns == RebuiltPatterns(rows[..i])
    {
      assert rows[..i + 1][..i] == rows[..i];
      var row := rows[i];
      if row.pattern.Some? && row.columnsText.Some? {
        var pattern := Strip(row.pattern.value);
        var columnsText := Strip(row.columnsText.value);
        var columns := ParseColumns(columnsText);
        if pattern != [] && columns != [] {
          patterns := patterns + [(pattern, columns)];
        }
      }
    }
    assert rows[..|rows|] == rows;
  }

  /** The watch-list loop of `on_save_profile`. */
  method RebuildWatchFolders(items: seq<string>) returns (folders: seq<string>)
    ensures folders == KeptFolders(items)
  {
    folders := [];
    for i := 0 to |items|
      invariant folders == KeptFolders(items[..i])
    {
      assert items[..i + 1][..i] == items[..i];
      if items[i] != [] {
        folders := folders + [items[i]];
      }
    }
    assert items[..|items|] == items;
  }

  /** `load_patterns`: one table row per pattern, filled in order. */
  method DisplayPatterns(patterns: seq<ColumnPattern>) returns (rows: seq<PatternRow>)
    ensures rows == DisplayedRows(patterns)
  {
    rows := [];
    for i := 0 to |patterns|
      invariant rows == DisplayedRows(patterns[..i])
    {
      assert patterns[..i + 1][..i] == patterns[..i];
      var (pattern, columns) := patterns[i];
      rows := rows + [PatternRow(Some(pattern), Some(JoinColumns(columns)))];
    }
    assert patterns[..|patterns|] == patterns;
  }

  /** The names `load_profiles` lists, `sorted(profiles.items())`: every
      stored name once, in code-point order. */
  method SortedNames(names: set<string>) returns (listed: seq<string>)
    ensures Sorted(listed) && Distinct(listed) && Elems(listed) == names
  {
    var picked := NameList(names);
    listed := SortStrings(picked);
    SortedDistinct(picked);
    SortedElems(picked);
  }

  /** The items of a set of names, each once, in some order. */
  method NameList(names: set<string>) returns (picked: seq<string>)
    ensures Distinct(picked) && Elems(picked) == names
  {
    picked := [];
    var rest := names;
    while rest != {}
      invariant Elems(picked) + rest == names && Elems(picked) !! rest && Distinct(picked)
      decreases |rest|
    {
      var k :| k in rest;
      DistinctAppend(picked, k);
      assert Elems(picked + [k]) == Elems(picked) + {k};
      picked := picked + [k];
      rest := rest - {k};
    }
  }

  /** Sorting keeps the set of names. */
  lemma SortedElems(s: seq<string>)
    ensures Elems(SortStrings(s)) == Elems(s)
  {
    var r := SortStrings(s);
    forall x ensures x in r <==> x in s {
      assert x in r <==> x in multiset(r);
      assert x in s <==> x in multiset(s);
    }
  }

  /** The search at the end of `on_save_profile`: the position of the first
      listed profile carrying the name, or |listed| when none does. */
  method FindNamed(profiles: map<string, ExtractionProfile>, listed: seq<string>, name: string) returns (i: nat)
    requires forall k :: k in listed ==> k in profiles
    ensures i <= |listed|
    ensures forall j :: 0 <= j < i ==> profiles[listed[j]].name != name
    ensures i < |listed| ==> profiles[listed[i]].name == name
  {
    i := 0;
    while i < |listed| && profiles[listed[i]].name != name
      invariant i <= |listed|
      invariant forall j :: 0 <= j < i ==> profiles[listed[j]].name != name
    {
      i := i + 1;
    }
  }

  // ---------------------------------------------------------------------
  // The dialog

  const NewProfileBase := "New Profile"

  /** The name `on_new_profile` proposes: "New Profile", or "New Profile n"
      for the least n >= 1 not listed. */
  function NewProfileName(listed: seq<string>): (r: string)
    ensures r !in listed && r != []
    ensures NewProfileBase !in listed ==> r == NewProfileBase
    ensures NewProfileBase in listed ==>
      exists n: nat {:trigger Candidate(NewProfileBase + " ", n, "")} ::
        && n >= 1
        && r == Candidate(NewProfileBase + " ", n, "")
        && forall m :: 1 <= m < n ==> Candidate(NewProfileBase + " ", m, "") in listed
  {
    FreeName(NewProfileBase, NewProfileBase + " ", "", Elems(listed))
  }

  datatype SaveOutcome = NoProfileSelected | InvalidName | NameConflict | ProfileSaved

  datatype AddPatternOutcome = Cancelled | InvalidPattern | InvalidColumns | RowAdded

  /** What the edit form holds: the name and output folder texts, the
      check box, the pattern rows and the watch-folder list. */
  datatype EditForm = EditForm(name: string, outputFolder: string, autoProcess: bool,
                               rows: seq<PatternRow>, folders: seq<string>)

  /** The form `on_profile_selected` fills in for a profile. */
  function ShownForm(p: ExtractionProfile): EditForm
    reads p
  {
    EditForm(p.name, p.outputFolder, p.autoProcess, DisplayedRows(p.columnPatterns), p.watchFolders)
  }

  class ProfileDialog {
    var manager: ProfileManager?
    /** The names shown in the profile list. */
    var listedNames: seq<string>
    var selectedProfile: ExtractionProfile?
    /** The texts and the check box of the edit form. */
    var nameText: string
    var outputFolderText: string
    var autoProcessChecked: bool
    var patternRows: seq<PatternRow>
    var watchItems: seq<string>

    /** A dialog showing the given profile names, none selected yet. */
    constructor (manager: ProfileManager?, listedNames: seq<string>)
      ensures this.manager == manager && this.listedNames == listedNames
      ensures selectedProfile == null && patternRows == [] && watchItems == []
      ensures nameText == "" && outputFolderText == "" && !autoProcessChecked
    {
      this.manager := manager;
      this.listedNames := listedNames;
      selectedProfile := null;
      nameText := "";
      outputFolderText := "";
      autoProcessChecked := false;
      patternRows := [];
      watchItems := [];
    }

    /** The profile list shows exactly the manager's profiles. */
    predicate InSync()
      reads this, manager
    {
      manager != null ==> Elems(listedNames) == manager.profiles.Keys
    }

    function Form(): EditForm
      reads this
    {
      EditForm(nameText, outputFolderText, autoProcessChecked, patternRows, watchItems)
    }

    /** `on_profile_selected`, reached through `currentItemChanged`: a
        profile is loaded into the form and becomes the selected one; a
        cleared selection drops the selected profile and leaves the form. */
    method OnProfileSelected(current: ExtractionProfile?)
      modifies this
      ensures selectedProfile == current
      ensures manager == old(manager) && listedNames == old(listedNames)
      ensures current != null ==> Form() == ShownForm(current)
      ensures current == null ==> Form() == old(Form())
    {
      if current != null {
        nameText := current.name;
        outputFolderText := current.outputFolder;
        autoProcessChecked := current.autoProcess;
        patternRows := DisplayPatterns(current.columnPatterns);
        watchItems := current.watchFolders;
      }
      selectedProfile := current;
    }

    /** `load_profiles`: clearing the list clears the selection; with a
        manager the list is refilled with its names, sorted. */
    method LoadProfiles()
      modifies this
      ensures manager == old(manager) && selectedProfile == null && Form() == old(Form())
      ensures manager == null ==> listedNames == []
      ensures manager != null ==> Sorted(listedNames) && Distinct(listedNames)
      ensures InSync()
    {
      OnProfileSelected(null);
      if manager == null {
        listedNames := [];
      } else {
        listedNames := SortedNames(manager.profiles.Keys);
      }
    }

    /** The end of `on_save_profile`: the list is reloaded and the first
        listed profile carrying the saved name is selected again. The
        manager's stored profile of that name is the one selected whenever
        no other stored profile carries the name. */
    method Reselect(name: string)
      requires manager != null
      modifies this
      ensures manager == old(manager)
      ensures Sorted(listedNames) && Distinct(listedNames) && InSync()
      ensures selectedProfile == null <==>
        forall k :: k in manager.profiles ==> manager.profiles[k].name != name
      ensures selectedProfile == null ==> Form() == old(Form())
      ensures selectedProfile != null ==>
        && selectedProfile in manager.profiles.Values && selectedProfile.name == name
        && Form() == ShownForm(selectedProfile)
      ensures
        && name in manager.profiles && manager.profiles[name].name == name
        && (forall k :: k in manager.profiles && k != name ==> manager.profiles[k].name != name)
        ==> selectedProfile == manager.profiles[name]
    {
      LoadProfiles();
      var i := FindNamed(manager.profiles, listedNames, name);
      if i < |listedNames| {
        OnProfileSelected(manager.profiles[listedNames[i]]);
      } else {
        forall k | k in manager.profiles ensures manager.profiles[k].name != name {
          assert k in Elems(listedNames);
          var j :| 0 <= j < |listedNames| && listedNames[j] == k;
        }
      }
    }

    /** `on_new_profile`: the proposed name is new to the list; the created
        profile is listed and selected, so the form shows it. With the list
        in step with the manager, the manager stores the new profile under
        exactly that name. */
    method OnNewProfile()
      modifies this, manager
      ensures manager == old(manager)
      ensures manager == null ==>
        listedNames == old(listedNames) && selectedProfile == old(selectedProfile) && Form() == old(Form())
      ensures manager != null ==>
        && selectedProfile != null && fresh(selectedProfile)
        && listedNames == old(listedNames) + [selectedProfile.name]
        && Form() == EditForm(selectedProfile.name, "", false, [], [])
      ensures manager != null && old(InSync()) ==>
        var name := NewProfileName(old(listedNames));
        && listedNames == old(listedNames) + [name]
        && name !in old(manager.profiles)
        && name in manager.profiles && manager.profiles[name] == selectedProfile
        && selectedProfile.name == name
        && manager.profiles.Keys == old(manager.profiles).Keys + {name}
        && InSync()
    {
      var existing := NameSet(listedNames);
      var name := ChooseFreeName(NewProfileBase, NewProfileBase + " ", "", existing);
      if manager != null {
        var profile := manager.CreateProfile(name);
        listedNames := listedNames + [profile.name];
        OnProfileSelected(profile);
      }
    }

    /** `on_save_profile`. A blank name or a name held by another listed
        profile is refused and nothing changes. Otherwise the selected
        profile takes the form's contents: the stripped name, the rows with
        a pattern and at least one column, and the non-empty watch folders;
        then the manager renames it (new name) or stores it (same name),
        and the list is reloaded with the profile of the new name selected
        again. */
    method OnSaveProfile() returns (outcome: SaveOutcome)
      modifies this, selectedProfile, manager
      modifies if manager != null && selectedProfile != null && selectedProfile.name in manager.profiles
        then {manager.profiles[selectedProfile.name]} else {}
      ensures manager == old(manager)
      ensures outcome == NoProfileSelected <==> old(selectedProfile) == null
      ensures old(selectedProfile) != null ==> (outcome == InvalidName <==> Strip(old(nameText)) == [])
      ensures outcome == NameConflict <==>
        && old(selectedProfile) != null && Strip(old(nameText)) != []
        && Strip(old(nameText)) != old(selectedProfile.name) && Strip(old(nameText)) in old(listedNames)
      ensures outcome != ProfileSaved ==> unchanged(this)
      ensures outcome != ProfileSaved && old(selectedProfile) != null ==> unchanged(old(selectedProfile))
      ensures outcome != ProfileSaved && manager != null ==> unchanged(manager)
      ensures outcome == ProfileSaved ==>
        && old(selectedProfile) != null
        && old(selectedProfile).Fields() == ProfileFields(Strip(old(nameText)), RebuiltPatterns(old(patternRows)),
             KeptFolders(old(watchItems)), old(outputFolderText), old(autoProcessChecked))
      ensures outcome == ProfileSaved && manager != null && Strip(old(nameText)) == old(selectedProfile.name) ==>
        && manager.profiles == old(manager.profiles)[Strip(old(nameText)) := old(selectedProfile)]
        && manager.defaultProfileName == old(manager.defaultProfileName)
      ensures outcome == ProfileSaved && manager != null && Strip(old(nameText)) != old(selectedProfile.name) ==>
        var oldName := old(selectedProfile.name);
        var newName := Strip(old(nameText));
        oldName in old(manager.profiles) && newName !in old(manager.profiles) ==>
          && oldName !in manager.profiles && newName in manager.profiles
          && manager.profiles[newName] == old(manager.profiles)[oldName]
          && manager.profiles == (old(manager.profiles) - {oldName})[newName := old(manager.profiles)[oldName]]
          && manager.defaultProfileName ==
               (if old(manager.defaultProfileName) == oldName then newName else old(manager.defaultProfileName))
      ensures outcome == ProfileSaved && manager != null && Strip(old(nameText)) != old(selectedProfile.name) ==>
        var oldName := old(selectedProfile.name);
        var newName := Strip(old(nameText));
        !(oldName in old(manager.profiles) && newName !in old(manager.profiles)) ==>
          && manager.profiles == old(manager.profiles)
          && manager.defaultProfileName == old(manager.defaultProfileName)
      ensures outcome == ProfileSaved && manager == null ==>
        listedNames == old(listedNames) && selectedProfile == old(selectedProfile) && Form() == old(Form())
      ensures outcome == ProfileSaved && manager != null ==>
        var newName := Strip(old(nameText));
        && Sorted(listedNames) && Distinct(listedNames) && InSync()
        && (selectedProfile == null <==>
              forall k :: k in manager.profiles ==> manager.profiles[k].name != newName)
        && (selectedProfile == null ==> Form() == old(Form()))
        && (selectedProfile != null ==>
              && selectedProfile in manager.profiles.Values && selectedProfile.name == newName
              && Form() == ShownForm(selectedProfile))
      ensures outcome == ProfileSaved && manager != null ==>
        var newName := Strip(old(nameText));
        (&& newName in manager.profiles && manager.profiles[newName].name == newName
         && (forall k :: k in manager.profiles && k != newName ==> manager.profiles[k].name != newName))
        ==> selectedProfile == manager.profiles[newName]
    {
      if selectedProfile == null {
        return NoProfileSelected;
      }
      var profile := selectedProfile;
      var oldName := profile.name;
      outcome := CheckSaveName(oldName, nameText, listedNames);
      if outcome != ProfileSaved {
        return;
      }
      var newName := Strip(nameText);
      ApplyForm(profile, newName, patternRows, watchItems, outputFolderText, autoProcessChecked);
      if manager != null {
        StoreEdited(manager, profile, oldName, newName);
        Reselect(newName);
      }
    }

    /** `on_browse_watch_folder` with the folder the user picked ("" when
        the picker was cancelled): a folder already listed is refused, so
        the list stays duplicate-free. */
    method OnBrowseWatchFolder(folder: string) returns (refused: bool)
      modifies this
      ensures refused <==> folder != [] && folder in old(watchItems)
      ensures watchItems ==
        if folder != [] && folder !in old(watchItems) then old(watchItems) + [folder] else old(watchItems)
      ensures Distinct(old(watchItems)) ==> Distinct(watchItems)
      ensures manager == old(manager) && listedNames == old(listedNames)
      ensures selectedProfile == old(selectedProfile) && patternRows == old(patternRows)
      ensures nameText == old(nameText) && outputFolderText == old(outputFolderText)
      ensures autoProcessChecked == old(autoProcessChecked)
    {
      refused := false;
      if folder != [] {
        var present := IsListed(watchItems, folder);
        if present {
          refused := true;
        } else {
          watchItems := watchItems + [folder];
        }
      }
    }

    /** `on_remove_watch_folder` for the highlighted row, if any. */
    method OnRemoveWatchFolder(current: Option<nat>)
      modifies this
      ensures watchItems ==
        if current.Some? && current.value < |old(watchItems)|
        then old(watchItems)[..current.value] + old(watchItems)[current.value + 1..]
        else old(watchItems)
      ensures current.Some? && current.value < |old(watchItems)| && Distinct(old(watchItems)) ==>
        Distinct(watchItems) && old(watchItems)[current.value] !in watchItems
      ensures manager == old(manager) && listedNames == old(listedNames)
      ensures selectedProfile == old(selectedProfile) && patternRows == old(patternRows)
      ensures nameText == old(nameText) && outputFolderText == old(outputFolderText)
      ensures autoProcessChecked == old(autoProcessChecked)
    {
      if current.Some? && current.value < |watchItems| {
        RemoveAtFacts(watchItems, current.value);
        watchItems := watchItems[..current.value] + watchItems[current.value + 1..];
      }
    }

    /** `on_add_pattern` once the sub-dialog closes: a blank pattern or a
        blank column text is refused; otherwise a row holding the stripped
        texts is appended. */
    method OnAddPattern(accepted: bool, patternText: string, columnsText: string)
      returns (outcome: AddPatternOutcome)
      modifies this
      ensures outcome == Cancelled <==> !accepted
      ensures outcome == InvalidPattern <==> accepted && Strip(patternText) == []
      ensures outcome == InvalidColumns <==> accepted && Strip(patternText) != [] && Strip(columnsText) == []
      ensures patternRows == if outcome == RowAdded
        then old(patternRows) + [PatternRow(Some(Strip(patternText)), Some(Strip(columnsText)))]
        else old(patternRows)
      ensures manager == old(manager) && listedNames == old(listedNames)
      ensures selectedProfile == old(selectedProfile) && watchItems == old(watchItems)
      ensures nameText == old(nameText) && outputFolderText == old(outputFolderText)
      ensures autoProcessChecked == old(autoProcessChecked)
    {
      if !accepted {
        return Cancelled;
      }
      var pattern := Strip(patternText);
      var text := Strip(columnsText);
      if pattern == [] {
        return InvalidPattern;
      }
      if text == [] {
        return InvalidColumns;
      }
      patternRows := patternRows + [PatternRow(Some(pattern), Some(text))];
      return RowAdded;
    }

    /** `on_delete_pattern`: a row number outside the table changes nothing. */
    method OnDeletePattern(row: int)
      modifies this
      ensures patternRows == if 0 <= row < |old(patternRows)|
        then old(patternRows)[..row] + old(patternRows)[row + 1..] else old(patternRows)
      ensures manager == old(manager) && listedNames == old(listedNames)
      ensures selectedProfile == old(selectedProfile) && watchItems == old(watchItems)
      ensures nameText == old(nameText) && outputFolderText == old(outputFolderText)
      ensures autoProcessChecked == old(autoProcessChecked)
    {
      if 0 <= row < |patternRows| {
        patternRows := patternRows[..row] + patternRows[row + 1..];
      }
    }
  }

  /** The name check of `on_save_profile`: the stripped name must be
      non-blank, and a changed name must not be listed already. */
  method CheckSaveName(oldName: string, nameText: string, listed: seq<string>) returns (outcome: SaveOutcome)
    ensures outcome == ProfileSaved || outcome == InvalidName || outcome == NameConflict
    ensures outcome == InvalidName <==> Strip(nameText) == []
    ensures outcome == NameConflict <==>
      Strip(nameText) != [] && Strip(nameText) != oldName && Strip(nameText) in listed
  {
    var newName := Strip(nameText);
    if newName == [] {
      return InvalidName;
    }
    if newName != oldName {
      var taken := IsListed(listed, newName);
      if taken {
        return NameConflict;
      }
    }
    return ProfileSaved;
  }

  /** The edit part of `on_save_profile`: the profile takes the form's
      name, kept pattern rows, kept watch folders, output folder and flag. */
  method ApplyForm(profile: ExtractionProfile, newName: string, rows: seq<PatternRow>, items: seq<string>,
                   outputFolder: string, autoProcess: bool)
    modifies profile
    ensures profile.Fields() == ProfileFields(newName, RebuiltPatterns(rows), KeptFolders(items), outputFolder, autoProcess)
  {
    var patterns := RebuildPatterns(rows);
    var folders := RebuildWatchFolders(items);
    profile.name := newName;
    profile.outputFolder := outputFolder;
    profile.autoProcess := autoProcess;
    profile.columnPatterns := patterns;
    profile.watchFolders := folders;
  }

  /** The manager's part of `on_save_profile`: a rename when the name
      changed, a plain save otherwise. The edited profile keeps its fields. */
  method StoreEdited(manager: ProfileManager, profile: ExtractionProfile, oldName: string, newName: string)
    requires newName != [] && profile.name == newName
    modifies manager, profile
    modifies if oldName in manager.profiles then {manager.profiles[oldName]} else {}
    ensures profile.Fields() == old(profile.Fields())
    ensures newName == oldName ==>
      && manager.profiles == old(manager.profiles)[newName := profile]
      && manager.defaultProfileName == old(manager.defaultProfileName)
    ensures newName != oldName && oldName in old(manager.profiles) && newName !in old(manager.profiles) ==>
      && oldName !in manager.profiles && newName in manager.profiles
      && manager.profiles[newName] == old(manager.profiles)[oldName]
      && manager.profiles == (old(manager.profiles) - {oldName})[newName := old(manager.profiles)[oldName]]
      && manager.defaultProfileName ==
           (if old(manager.defaultProfileName) == oldName then newName else old(manager.defaultProfileName))
    ensures newName != oldName && !(oldName in old(manager.profiles) && newName !in old(manager.profiles)) ==>
      && manager.profiles == old(manager.profiles)
      && manager.defaultProfileName == old(manager.defaultProfileName)
  {
    if newName != oldName {
      ghost var before := manager.profiles;
      var ok := manager.RenameProfile(oldName, newName);
      if ok {
        var profile := before[oldName];
        assert (before[newName := profile] - {oldName})[newName := profile] ==
          (before - {oldName})[newName := profile];
      }
    } else {
      var _ := manager.SaveProfile(profile);
    }
  }

  /** A row added by hand (its texts stripped, see OnAddPattern)
      contributes its entry on save exactly when its column text has a
      non-blank entry. */
  lemma AddedRowSaved(rows: seq<PatternRow>, pattern: string, text: string)
    requires pattern != [] && Strip(pattern) == pattern && Strip(text) == text
    ensures RebuiltPatterns(rows + [PatternRow(Some(pattern), Some(text))]) ==
      RebuiltPatterns(rows) + (if ParseColumns(text) != [] then [(pattern, ParseColumns(text))] else [])
  {
    var row := PatternRow(Some(pattern), Some(text));
    if ParseColumns(text) != [] {
      RowEntryStripped(pattern, text, ParseColumns(text));
    }
    assert (rows + [row])[..|rows|] == rows;
  }

  /** A list without a blank entry is kept whole on save. */
  lemma {:induction false} KeptFoldersAll(items: seq<string>)
    requires forall x :: x in items ==> x != []
    ensures KeptFolders(items) == items
    decreases |items|
  {
    if items != [] {
      var init := items[..|items| - 1];
      assert forall x :: x in init ==> x in items;
      KeptFoldersAll(init);
      assert items[|items| - 1] in items;
      assert items == init + [items[|items| - 1]];
    }
  }

  /** Selecting a profile (OnProfileSelected) and saving the form untouched
      gives the profile its own fields back, when they are what a save
      produces: a name without surrounding blanks, clean patterns and no
      blank watch folder. */
  lemma ShownFormSaved(p: ProfileFields)
    requires Trimmed(p.name) && CleanPatterns(p.columnPatterns)
    requires forall x :: x in p.watchFolders ==> x != []
    ensures ProfileFields(Strip(p.name), RebuiltPatterns(DisplayedRows(p.columnPatterns)),
      KeptFolders(p.watchFolders), p.outputFolder, p.autoProcess) == p
  {
    StripTrimmed(p.name);
    RebuildDisplayed(p.columnPatterns);
    KeptFoldersAll(p.watchFolders);
  }
}
