# Excel data extractor, modelled in Dafny

This project models the core of the Excel data extractor. The extractor takes
a ZIP archive of Excel workbooks and loads every sheet as a table. The user
picks columns per (file, sheet). The tool then writes a merged workbook with
one worksheet per selected sheet plus a summary sheet. It has three
front-ends (Qt, wx and a command line) and a store of saved extraction
profiles that reapply a column selection to new files.

The model covers:

- the shared processing module: which archive entries are kept, which sheets
  and files a read keeps, worksheet naming and its de-duplication loop, the
  header and data rows, the summary rows and the merge as a whole;
- the profile store: the `file:F|sheet:S` pattern language, applying a
  profile to newly loaded data, pattern and watch-folder updates, and the
  name-keyed profile map with its default name;
- how each front-end edits the selection `file -> sheet -> [columns]`: the
  Qt checkbox handler that deletes emptied entries, the wx handlers that
  keep them, and the command-line answer parser;
- the Qt reader's file-name sanitising and `_n` suffix loop, its path
  de-duplication and sort, and its display column names;
- the profile dialog's rules: a fresh "New Profile n" name, name validation
  on save, rebuilding the edited profile, the watch-folder list and the
  pattern rows.

Python dictionaries keep insertion order, and the worksheet order, summary-row
order and match-result order depend on it. So every dictionary of the program
is an association list with distinct keys (`OrderedDicts.Dict`), except the
profile store's name map, which is a Dafny `map` of profile objects. A pandas
DataFrame is a `Tables.Table`: its column names plus rows of optional cells,
where a missing cell is what pandas reports as NaN. Reading a workbook,
opening a path, the user's typed answers and whether saving succeeds are
parameters of the model.

The modules follow the program's files:

- `file_processor.dfy` (shared processing);
- `profiles.dfy` (profile_manager.py);
- `qt.dfy`, `wx.dfy` and `cli.dfy` (the three front-ends);
- `profile_dialog.dfy` (profile_dialog.py);
- `selections.dfy` (selection edits the front-ends share);
- `unique_names.dfy` (the "first free name" loop, used four times);
- `tables.dfy`, `dicts.dfy`, `lists.dfy` and `strings.dfy` (the data model and
  the Python operations it relies on).

## Model

Several operations are written as plain definitions without a contract of
their own. These are characterised by the lemmas and methods in the table:

- Profiles:
  - `PatternMatchesSheet` (profile_manager.py:109-126): BarePattern, FilePatternMatch, FilePatternRoundTrip.
  - `FilePattern` (profile_manager.py:93-97): FilePatternRoundTrip, BarInFileName.
  - `MatchSheets`, `MatchFiles`, `MatchPatterns`, `ColumnsFor` and `MatchToNewFilesSpec` (profile_manager.py:128-157): MatchSheetsAt, MatchFilesAt, MatchPatternsAt, ColumnsForPresent, ColumnsForContents, MatchToNewFilesSelects, MatchToNewFilesValid, MatchToNewFilesEmpty.
- FileProcessor, archive and reads:
  - `KeepArchiveEntry` and `ArchiveFiles` (file_processor.py:39-52): ArchiveFolderTestRedundant, ArchiveFilesMembers, ArchiveFilesLast.
  - `ReadOne` and `ReadFiles` (file_processor.py:85-168): ReadOneSpec, ReadFilesSpec.
- FileProcessor, worksheet names and the summary:
  - `Stem` and `WorksheetBaseName` (file_processor.py:217-220): StemOfSuffixed, WorksheetBaseNameSpec.
  - `WorksheetName` (file_processor.py:222-228): WorksheetNameSpec.
  - `SummaryFileRows`, `SummaryRows` and `SummarySheet` (file_processor.py:246-262): SummaryFileRowsSpec, SummaryFileRowAt, SummaryRowsSpec, SummaryRowAt.
- FileProcessor, the merge:
  - `MergeStep`, `MergeSheets`, `MergeFiles` and `MergeSpec` (file_processor.py:170-276): MergeStepSome, MergeSheetsSome, MergeFilesSome, MergeSpecSaved, MergeSpecSheets, MergeSpecContents, and the None-propagation lemmas.
  - `SheetPicks`, `Picks`, `CountSheets` and `CountSelected` (file_processor.py:194-207): SheetPicksCount, SheetPicksMembers, PicksMembers, MergeSheetsCount, MergeFilesCount.
  - `MergeSheetsAsWritten`, `MergeFilesAsWritten` and `MergeAsWritten` (file_processor.py:194-231): MergeSheetsAsWrittenRaises, MergeAsWrittenFails, MergeAsWrittenExample.
- QtExtractor:
  - `QtReadOne`, `QtReadOneAsWritten`, `QtReadFiles` and `QtReadFilesAsWritten` (excel_extractor_qt.py:261-396): QtReadOneKeeps, QtReadFilesKeeps, QtFallbackOverwrites, QtReadFilesAsWrittenValid.
  - `QtChange` (excel_extractor_qt.py:1233-1269): QtChangeAt, QtChangeValid, QtChangePruned, QtChangeNoDuplicates.
- Selections: `Toggled` and `SetSheet` (excel_extractor_wx.py:697-716): ToggledSpec, SetSheetAt, SetSheetKeys, SetSheetNoDuplicates.
- WxExtractor:
  - `InitialSelection` (excel_extractor_wx.py:528-533): InitialSelectionAt, InitialSelectionCovers.
  - `WxToggle` (excel_extractor_wx.py:697-716): WxToggleAt.
- CliExtractor: `ParseIndices`, `PickColumns`, `CliSheets` and `CliSelection` (excel_extractor_cli.py:154-204): ParseIndicesNone, ParseErrorSelectsNothing, PickColumnsInRange, NumberListSelects, CliSelectionAt.
- ProfileDialogs:
  - `JoinColumns` (profile_dialog.py:283-300): ParseJoinedColumns, ParseColumnsRedisplayed, DisplayedRows.
  - `ShownForm` and `ProfileDialog.Form` (profile_dialog.py:246-300): ProfileDialog.OnProfileSelected, ShownFormSaved.

| member | source | states |
|---|---|---|
| FileProcessor.ArchiveFolderTestRedundant | file_processor.py:40-44 | The folder test never rejects an entry the extension test accepts: an entry is kept exactly when its lower-cased name ends in `.xlsx` or `.xls`. |
| FileProcessor.Basename | file_processor.py:43 | The base name is the slash-free tail of the path. It is non-empty when the path does not end in `/`, and a slash-free path is its own base name. |
| FileProcessor.ArchiveFilesMembers | file_processor.py:39-52 | A path is in the extracted list exactly when it is the joined path of some kept entry whose extraction succeeded. |
| FileProcessor.ArchiveFilesLast | file_processor.py:39-52 | Each entry adds its joined path at the end of the list when it is kept and extracted, and adds nothing otherwise. |
| FileProcessor.ExtractZipEntries | file_processor.py:25-52 | The loop over archive entries returns exactly the list that ArchiveFiles specifies. |
| FileProcessor.ReadOneSpec | file_processor.py:95-156 | Reading one more path keeps the file keys distinct and only adds or replaces the entry under that path's base name. Every stored file has a non-empty dictionary of distinct sheet names, and its tables are non-empty except the single `Sheet1` frame of the `.xls` fallback, which is stored without the emptiness test. |
| FileProcessor.ReadFilesSpec | file_processor.py:85-168 | The loaded data has distinct file keys, and every file key is the base name of one of the paths read. Every file has at least one sheet, and no sheet is empty except the single `Sheet1` frame of the `.xls` fallback. |
| FileProcessor.ReadExcelFiles | file_processor.py:74-168 | The reading loop returns exactly ReadFiles over the paths, with the open and read results supplied per path. |
| FileProcessor.ReadSheets | file_processor.py:127-151 | The loop over one workbook's sheets returns exactly KeptSheets. |
| FileProcessor.KeptSheets | file_processor.py:130-145 | The kept sheets have distinct names, and none is an empty table. |
| FileProcessor.KeptSheetsKeys | file_processor.py:127-151 | A sheet name is kept exactly when some sheet of that name was read and is not empty. |
| FileProcessor.StemOfSuffixed | file_processor.py:218 | The stem of `name.ext` is `name` when `name` has no slash and `ext` has no dot. |
| FileProcessor.WorksheetBaseNameSpec | file_processor.py:217-220 | The base worksheet name has at most 31 characters and contains no `[`, `]` or `:`. |
| FileProcessor.CleanedShape | file_processor.py:219 | Removing `[`, `]` and `:` leaves the `_` between stem and sheet, and none of the removed characters. |
| FileProcessor.TruncatedShape | file_processor.py:220 | Truncating a cleaned name to 31 characters keeps it free of `[`, `]` and `:`. |
| FileProcessor.WorksheetNameSpec | file_processor.py:222-228 | The chosen name differs from every existing worksheet name. It is the base name when that is free, it keeps the bracket-free shape, and it has at most 31 characters while fewer than 999 sheets exist. |
| FileProcessor.ChooseWorksheetName | file_processor.py:222-228 | The counter loop returns exactly WorksheetName: the base name, or `base[:27]_n` for the least free n >= 1. |
| FileProcessor.SheetRows | file_processor.py:233-244 | Row 0 holds the selected column names in selection order. Data row r goes to output row r+1 with each selected column's value, and a missing cell is written as empty text. |
| FileProcessor.WriteWorksheet | file_processor.py:233-244 | The nested write loops produce exactly the worksheet SheetRows describes. |
| FileProcessor.SummaryFileRowsSpec | file_processor.py:256-262 | One file contributes exactly as many summary rows as it has sheets with a non-empty list. Each row is file, sheet and the columns joined by `", "` for one of those sheets. |
| FileProcessor.SummaryFileRowAt | file_processor.py:256-262 | Conversely, sheet j with a non-empty list has its row at position NonEmptyLists(sheets[..j]), the number of non-empty lists before it. With the count, this fixes every row and keeps the sheet order. |
| FileProcessor.SummaryRowsSpec | file_processor.py:254-262 | The summary has exactly as many rows as there are non-empty lists in the selection. Every row is the (file, sheet, joined columns) triple of one of them. |
| FileProcessor.SummaryRowAt | file_processor.py:254-262 | Conversely, every selected (file, sheet) with a non-empty list has its row, at the number of non-empty lists of the earlier files plus those of the earlier sheets in its file. With the count, this fixes every row and their file-then-sheet order. |
| FileProcessor.WriteSummary | file_processor.py:246-262 | The summary loop writes the header and then exactly SummaryRows. |
| FileProcessor.MergeStepSome | file_processor.py:201-213 | One sheet's step succeeds exactly when every selected column exists in its table. An empty selection always succeeds, because it is skipped. |
| FileProcessor.MergeSheetsSome | file_processor.py:199-244 | One file's sheets merge without error exactly when every sheet's selected columns exist in its table. |
| FileProcessor.MergeFilesSome | file_processor.py:194-244 | All files merge without error exactly when every (file, sheet)'s selected columns exist in its table. |
| FileProcessor.MergeSheetsCount | file_processor.py:199-231 | A file adds as many worksheets as it has sheets with a non-empty selection. What each one holds is stated by MergeSheetsBuilt. |
| FileProcessor.MergeFilesCount | file_processor.py:191-231 | The merge creates as many worksheets as there are (file, sheet) pairs with a non-empty selection, so `worksheet_count` is that number. What each one holds is stated by MergeFilesBuilt. |
| FileProcessor.SheetPicksCount | file_processor.py:199-207 | One file has CountSheets picks: its sheets with a non-empty selection. |
| FileProcessor.SheetPicksMembers | file_processor.py:199-207 | A pick of one file is exactly one of its loaded sheets, with that sheet's frame and its selection, which is not empty. |
| FileProcessor.PicksMembers | file_processor.py:194-207 | The picks, in loaded order, are exactly the loaded (file, sheet) pairs with a non-empty selection, each with its frame and selection, and there are CountSelected of them. |
| FileProcessor.BuiltFromStep | file_processor.py:213-244 | Appending the worksheet for one more pick, named among all worksheets before it, keeps worksheet k matched to pick k. |
| FileProcessor.MergeSheetsBuilt | file_processor.py:199-244 | Merging one file's sheets appends, in sheet order, one worksheet per sheet with a non-empty selection. It holds SheetRows of that sheet's frame and columns, under WorksheetName of its base name among all worksheets before it. |
| FileProcessor.MergeFilesBuilt | file_processor.py:194-244 | Merging all files appends worksheet k for pick k, the k-th loaded (file, sheet) with a non-empty selection: its selected columns, under its deduplicated name. |
| FileProcessor.MergeStepNames | file_processor.py:218-230 | Adding one worksheet keeps the names pairwise distinct, free of `[`, `]` and `:`, and at most 31 characters long while fewer than 999 sheets exist. |
| FileProcessor.MergeSheetsNames | file_processor.py:199-231 | Merging one file's sheets keeps the worksheet names distinct and well-shaped. |
| FileProcessor.MergeFilesNames | file_processor.py:194-231 | Merging all files keeps the worksheet names distinct and well-shaped. |
| FileProcessor.MergeSheetsNone | file_processor.py:273-276 | Once an error is raised, the rest of the file's sheets cannot undo it. |
| FileProcessor.MergeFilesNone | file_processor.py:273-276 | Once an error is raised, the remaining files cannot undo it. |
| FileProcessor.MergeSheetsPrefixNone | file_processor.py:199-244 | An error raised on a prefix of the sheets makes the whole file's merge fail. |
| FileProcessor.MergeFilesPrefixNone | file_processor.py:194-244 | An error raised on a prefix of the files makes the whole merge fail. |
| FileProcessor.MergeSpecSaved | file_processor.py:183-276 | With every `add_sheet` and `write` accepted, the merge returns a workbook exactly when every selected column exists and the save succeeds. Otherwise it reports failure. xlwt's write refusals are listed under Left out. |
| FileProcessor.MergeSpecSheets | file_processor.py:191-271 | A saved workbook has one worksheet per non-empty selection plus `Summary` as its last sheet. All sheet names are distinct, and they have at most 31 characters while at most 999 worksheets are created. |
| FileProcessor.MergeSpecContents | file_processor.py:191-271 | In a saved workbook, worksheet k holds SheetRows of the k-th loaded (file, sheet) with a non-empty selection, under WorksheetName of its base name among the worksheets before it. The summary sheet is last, and nothing else is in the workbook. |
| FileProcessor.ProcessAndMergeData | file_processor.py:170-276 | With get_sheets corrected, the method's loops return exactly MergeSpec: the worksheets, then the summary, or failure. |
| FileProcessor.MergeFileSheets | file_processor.py:199-244 | The inner loop over one file's sheets returns MergeSheets, and its worksheet counter equals the number of worksheets created. |
| FileProcessor.MergeSheetsAsWrittenRaises | file_processor.py:225 | As written, a file's sheet loop raises exactly when some sheet has a non-empty selection. That sheet reaches the `workbook.get_sheets()` call, which xlwt's Workbook does not have. |
| FileProcessor.MergeAsWrittenFails | file_processor.py:194-231 | As written, the merge fails whenever anything at all is selected. |
| FileProcessor.MergeAsWrittenExample | file_processor.py:170-276 | For one file with one sheet and one selected text column, the code as written fails. The corrected merge saves a two-sheet workbook. |
| Tables.SelectedFor | file_processor.py:201 | The columns for (file, sheet) are the stored list when both keys exist, and empty when the file or the sheet is missing. |
| Tables.TotalZero | excel_extractor_wx.py:786-794 | The summed number of selected columns is zero exactly when every selection list is empty. |
| Tables.TotalAppend | excel_extractor_wx.py:428 | The total of a selection with one more file is the old total plus that file's list lengths. |
| Tables.Lookup2Put | excel_extractor_qt.py:1243-1265 | After one file entry is replaced, a two-level lookup sees the new entry for that file and the old value for every other file. |
| Tables.Lookup2Remove | excel_extractor_qt.py:1264-1265 | After one file entry is deleted, a lookup under that file finds nothing and every other file is unchanged. |
| Profiles.BarePattern | profile_manager.py:124-126 | A pattern not starting with `file:` matches exactly the sheets of that name, whatever the file. |
| Profiles.FilePatternMatch | profile_manager.py:112-122 | A `file:` pattern has two parts exactly when it holds one `|`. It matches exactly when it holds one `|` and the file and sheet equal the stripped parts with `file:` and `sheet:` removed. |
| Profiles.FilePatternRoundTrip | profile_manager.py:93-122 | The pattern built for (F, S) matches exactly (F, S), provided F and S contain no `|`, no `file:` or `sheet:`, and no surrounding whitespace. |
| Profiles.BarInFileName | profile_manager.py:96-116 | Without that proviso the round trip breaks: the pattern built for the file `a\|b.xlsx` does not match that file. |
| Profiles.AddAbsent | profile_manager.py:153-155 | Adding a pattern's columns keeps the existing list as a prefix. It adds exactly the requested columns the sheet has, and never creates a duplicate. |
| Profiles.ColumnsForPresent | profile_manager.py:144-150 | A sheet gets a list exactly when it already had one or some pattern matches it. |
| Profiles.ColumnsForContents | profile_manager.py:141-155 | The list is duplicate-free. It holds exactly the earlier columns plus the columns the sheet has that some matching pattern requests (the union across patterns). |
| Profiles.MatchSheetsAt | profile_manager.py:143-155 | One pattern applied to one file's sheets changes only the matched sheets of that file, each to AddAbsent of its columns. |
| Profiles.MatchFilesAt | profile_manager.py:142-155 | One pattern applied to all files changes exactly the matched (file, sheet) pairs that exist in the data. |
| Profiles.MatchPatternsAt | profile_manager.py:141-155 | After all patterns, each existing (file, sheet) holds ColumnsFor over the patterns, and every other key is untouched. |
| Profiles.MatchToNewFilesSelects | profile_manager.py:128-157 | (f, s) is in the result exactly when the data has it and some pattern matches it. Its list is duplicate-free and holds exactly the sheet's columns that a matching pattern requests. |
| Profiles.MatchToNewFilesValid | profile_manager.py:138-157 | The result is a well-formed nested dictionary: distinct file keys, and distinct sheet keys in every file. |
| Profiles.MatchToNewFilesEmpty | profile_manager.py:138-157 | The result is empty exactly when no pattern matches any loaded (file, sheet). |
| Profiles.MatchPatternsNoEmptyFile | profile_manager.py:146-150 | A file entry is only created together with a sheet entry, so no file maps to an empty dictionary. |
| Profiles.ExtractionProfile.MatchToNewFiles | profile_manager.py:128-157 | The triple loop returns exactly MatchToNewFilesSpec over the profile's patterns. |
| Profiles.ExtractionProfile.MatchFile | profile_manager.py:142-155 | The loop over files, for one pattern, returns exactly MatchFiles. |
| Profiles.ExtractionProfile.MatchFileSheets | profile_manager.py:143-155 | The loop over one file's sheets returns exactly MatchSheets. |
| Profiles.ExtractionProfile.VisitSheet | profile_manager.py:145-155 | A matched sheet's entries are created if missing, then its list becomes AddAbsent of the pattern's columns. Every other entry is kept. |
| Profiles.ExtractionProfile.AppendAvailable | profile_manager.py:153-155 | The column loop returns exactly AddAbsent: the columns present in the sheet and not yet listed, appended in pattern order. |
| Profiles.ExtractionProfile.constructor | profile_manager.py:49-55 | A new profile has the given name, no patterns, no watch folders, an empty output folder and auto-processing off. |
| Profiles.ExtractionProfile.FromDict | profile_manager.py:67-75 | Every field is read from the stored data, and a missing key takes its default, such as "Unnamed Profile" for the name. |
| Profiles.FromStored | profile_manager.py:67-75 | Each missing key yields its documented default. |
| Profiles.ExtractionProfile.ToDict | profile_manager.py:57-65 | Every key is written, and reading the dictionary back gives the same profile (the round trip). |
| Profiles.ExtractionProfile.AddColumnPattern | profile_manager.py:77-91 | A new pattern string is appended. An existing one moves to the end with the set union of old and new columns, the other entries keep their order, and pattern strings stay distinct. |
| Profiles.PatternAddedValid | profile_manager.py:77-91 | Adding a pattern keeps the pattern strings pairwise distinct. |
| Profiles.ExtractionProfile.AddFileSelection | profile_manager.py:93-97 | This adds the pattern `file:F\|sheet:S` with the given columns, by the AddColumnPattern rules. |
| Profiles.ExtractionProfile.AddWatchFolder | profile_manager.py:99-102 | An unlisted, non-empty folder is appended and anything else is ignored, so the list stays duplicate-free. |
| Profiles.ExtractionProfile.RemoveWatchFolder | profile_manager.py:104-107 | A listed folder loses its first occurrence, so a duplicate-free list no longer holds it. An unlisted folder changes nothing. |
| Profiles.ProfileManager.constructor | profile_manager.py:163-176 | The manager starts with no profiles and no default. |
| Profiles.ProfileManager.SaveProfile | profile_manager.py:196-220 | An empty name becomes "Unnamed Profile". The profile is stored under its name, and its other fields and the default are unchanged. |
| Profiles.ProfileManager.LoadProfile | profile_manager.py:222-238 | The profile built from the stored data is stored under its name. |
| Profiles.ProfileManager.CreateProfile | profile_manager.py:178-194 | The profile gets the requested name, or `name (n)` for the least free n >= 1. That name was not stored before, and the new profile is stored under it with default fields. |
| Profiles.ProfileManager.DeleteProfile | profile_manager.py:253-282 | Deletion succeeds exactly when the name is stored. The name is then removed, and deleting the default clears the default. |
| Profiles.ProfileManager.RenameProfile | profile_manager.py:284-320 | Renaming fails and changes nothing when the old name is absent or the new one is taken. On success the old key is gone, the new key holds the same profile with its new name, and the default follows the rename. |
| Profiles.ProfileManager.SetDefaultProfile | profile_manager.py:322-331 | Only a stored name or `""` is accepted as the default. A refused name changes nothing. |
| Profiles.ProfileManager.GetDefaultProfile | profile_manager.py:333-338 | The default profile is present exactly when the default name is set and stored. While the default invariant holds, a set default is always found. |
| UniqueNames.FreeName | profile_manager.py:181-185 | The chosen name is not taken. It is the first choice when that is free, and otherwise `prefix + n + suffix` with every smaller counter taken. |
| UniqueNames.ChooseFreeName | profile_manager.py:181-185 | The counter loop stops, and it returns exactly FreeName. |
| UniqueNames.CandidateInjective | profile_manager.py:184 | Different counters give different candidate names, which bounds the loop by the number of taken names. |
| UniqueNames.TakenBound | excel_extractor_qt.py:337-340 | When the counters 1..n-1 are all taken, at least n-1 names are taken. |
| Selections.ToggledSpec | excel_extractor_qt.py:1251-1258 | Checking makes the column present and keeps the old list as a prefix. Unchecking removes one occurrence, or changes nothing if the column is absent. Other columns are unaffected, and a duplicate-free list stays duplicate-free. |
| Selections.SetSheetAt | excel_extractor_wx.py:728-731 | Overwriting one sheet's list changes that (file, sheet) and nothing else. |
| Selections.SetSheetKeys | excel_extractor_wx.py:749 | Overwriting an existing sheet's list adds and removes no file or sheet key. |
| Selections.SetSheetNoDuplicates | excel_extractor_wx.py:728-731 | Overwriting a list with a duplicate-free list keeps every list duplicate-free. |
| Selections.SelectedDistinct | excel_extractor_qt.py:1253 | In a duplicate-free selection, the list for any (file, sheet) is duplicate-free. |
| QtExtractor.SanitizedName | excel_extractor_qt.py:291-295 | Sanitising keeps the length and leaves none of the eleven listed characters. It changes exactly the positions that held one. |
| QtExtractor.SanitizeIdempotent | excel_extractor_qt.py:294-295 | Sanitising an already sanitised name changes nothing. |
| QtExtractor.SanitizeFileName | excel_extractor_qt.py:292-295 | The replacement loop over the eleven characters returns exactly SanitizedName. |
| QtExtractor.FreshKeyFresh | excel_extractor_qt.py:334-341 | The storage key is not a key yet. It is the sanitised name when that is free, and otherwise `name_n` for some n >= 1. |
| QtExtractor.QtReadOneKeeps | excel_extractor_qt.py:281-383 | With the suffix loop applied to both branches, reading a file keeps every earlier entry unchanged and adds at most one entry under a key that was not present. |
| QtExtractor.QtReadFilesKeeps | excel_extractor_qt.py:261-396 | Each prefix of the corrected read is a prefix of the final data. The keys are distinct, and there is at most one entry per path. |
| QtExtractor.QtFallbackOverwrites | excel_extractor_qt.py:318-323 | As written, when an `.xls` file that pandas cannot open is read by the xlrd fallback, it replaces an earlier file with the same sanitised name. |
| QtExtractor.QtReadFilesAsWrittenValid | excel_extractor_qt.py:261-396 | Even as written, the file keys stay distinct. |
| QtExtractor.ReadExcelFiles | excel_extractor_qt.py:261-396 | The reading loop as written returns exactly QtReadFilesAsWritten. |
| QtExtractor.StoreSheets | excel_extractor_qt.py:343-378 | The sheet loop stores every readable sheet of the workbook under a fresh file key. |
| QtExtractor.UniqueSortedPaths | excel_extractor_qt.py:241-252 | The final path list is duplicate-free, is sorted ascending by code point, and holds exactly the paths found. |
| QtExtractor.DisplayColumns | excel_extractor_qt.py:78-80 | There is one display name per column: the label's text, or `Column_i` when the label is missing. |
| QtExtractor.ProcessDataframe | excel_extractor_qt.py:65-80 | An empty frame becomes the one-cell "No Data" table. Any other frame keeps its rows and gets one display name per column. |
| QtExtractor.HeaderlessColumnsDistinct | excel_extractor_qt.py:79-80 | A sheet read without a header row has the labels 0..n-1, which display as distinct numerals. |
| QtExtractor.MissingLabelNamesDistinct | excel_extractor_qt.py:79-80 | Missing labels at different positions get different names. |
| QtExtractor.QtChangeAt | excel_extractor_qt.py:1243-1265 | After a checkbox change, (f, s) holds the toggled list, or disappears when that list is empty. Every other (file, sheet) is unchanged. |
| QtExtractor.QtChangeValid | excel_extractor_qt.py:1243-1265 | A checkbox change keeps file and sheet keys distinct. |
| QtExtractor.QtChangePruned | excel_extractor_qt.py:1260-1265 | After any change, no sheet list is empty and no file dictionary is empty. |
| QtExtractor.QtChangeNoDuplicates | excel_extractor_qt.py:1251-1258 | A change keeps every list duplicate-free. |
| QtExtractor.EnsureEntries | excel_extractor_qt.py:1242-1248 | Creating the missing file and sheet entries only adds an empty list for (f, s), or keeps the existing one. |
| QtExtractor.ToggleColumn | excel_extractor_qt.py:1250-1258 | The append or remove on one list returns exactly Toggled. |
| QtExtractor.PruneAfterSet | excel_extractor_qt.py:1260-1265 | Writing the toggled list and then pruning gives exactly QtChange. |
| QtExtractor.CountColumns | excel_extractor_qt.py:1666-1672 | The counting loop returns the sum of the list lengths. |
| QtExtractor.QtExtractorApp.constructor | excel_extractor_qt.py:448-475 | The window starts with no data and no selection. |
| QtExtractor.QtExtractorApp.ColumnSelectionChanged | excel_extractor_qt.py:1233-1269 | The handler's edits amount to QtChange. They keep the pruned and duplicate-free invariants and leave the loaded data alone. |
| QtExtractor.QtExtractorApp.EnsureEntry | excel_extractor_qt.py:1242-1248 | Missing file and sheet entries are created empty, and existing ones are kept. |
| QtExtractor.QtExtractorApp.PruneEmpty | excel_extractor_qt.py:1260-1265 | An emptied sheet list is deleted, then an emptied file dictionary. |
| QtExtractor.QtExtractorApp.ApplyProfile | excel_extractor_qt.py:1651-1680 | A profile applies exactly when there is a profile, data is loaded and the match is non-empty. The selection then becomes the match and the total is its summed list length. Otherwise nothing changes. |
| WxExtractor.InitialSelectionAt | excel_extractor_wx.py:528-533 | After loading, each loaded (file, sheet) has an empty list and nothing else is present, so the total is 0. |
| WxExtractor.InitialSelectionCovers | excel_extractor_wx.py:528-533 | The initial selection has an entry for every loaded (file, sheet). |
| WxExtractor.SetSheetCovers | excel_extractor_wx.py:728-749 | Overwriting a list keeps an entry for every loaded (file, sheet). |
| WxExtractor.WxToggleAt | excel_extractor_wx.py:707-713 | A checkbox change toggles only that sheet's list. It deletes no entry, keeps the file and sheet keys, and keeps lists duplicate-free. |
| WxExtractor.OutputFileName | excel_extractor_wx.py:801-815 | A blank name is rejected. Otherwise the stripped name is kept, followed by `.xls` unless it already ends in `.xls` in any case. |
| WxExtractor.OutputFileNameIdempotent | excel_extractor_wx.py:802-815 | Applying the rule to its own result changes nothing. |
| WxExtractor.WxExtractorApp.constructor | excel_extractor_wx.py:29-53 | The frame starts with no data and no selection. |
| WxExtractor.WxExtractorApp.InitSelection | excel_extractor_wx.py:528-533 | The loop gives every loaded (file, sheet) an empty list. |
| WxExtractor.WxExtractorApp.OnColumnCheckbox | excel_extractor_wx.py:697-716 | The checkbox handler toggles one list in place and keeps full coverage of the loaded sheets. |
| WxExtractor.WxExtractorApp.OnSelectAll | excel_extractor_wx.py:718-737 | The sheet's list becomes exactly that sheet's columns in order, and every other list is unchanged. |
| WxExtractor.WxExtractorApp.OnDeselectAll | excel_extractor_wx.py:739-755 | Only that sheet's list becomes empty. |
| WxExtractor.WxExtractorApp.OnContinueToOutput | excel_extractor_wx.py:783-797 | The output step is allowed exactly when some list is non-empty, that is, when the total is positive. |
| WxExtractor.WxExtractorApp.ProcessAndMerge | excel_extractor_wx.py:903-997 | The wx merge returns exactly MergeSpec, with the worksheet names read from the workbook's sheet list, so MergeSpecSaved and MergeSpecContents describe its outcome and its worksheets. |
| CliExtractor.ParseSelection | excel_extractor_cli.py:180-204 | `all`, in any case and with blanks around it, selects every column in order, and `none` selects nothing. Every selected name is a column of the sheet. |
| CliExtractor.ParseIndicesNone | excel_extractor_cli.py:191-204 | Parsing fails exactly when some non-blank token is not an integer. |
| CliExtractor.ParseErrorSelectsNothing | excel_extractor_cli.py:202-204 | A bad token makes the whole sheet's selection empty. |
| CliExtractor.PickColumnsInRange | excel_extractor_cli.py:195-198 | In-range indices pick their columns in the order given, with repeats kept. |
| CliExtractor.NumberListSelects | excel_extractor_cli.py:193-198 | Typing the 1-based numbers `k1,k2,...` selects the columns at `k-1`, dropping those out of range (a round trip through the parser). An empty answer selects nothing. |
| CliExtractor.ParseNumbers | excel_extractor_cli.py:193 | Decimal numerals parse back to their values, minus one. |
| CliExtractor.CliSelectionAt | excel_extractor_cli.py:164-204 | Every loaded (file, sheet) gets exactly the selection its answer parses to, and nothing else gets an entry. |
| CliExtractor.AskSheets | excel_extractor_cli.py:171-204 | The loop over one file's sheets returns exactly CliSheets. |
| CliExtractor.InteractiveColumnSelection | excel_extractor_cli.py:154-210 | The loop returns CliSelection and the summed list lengths. |
| CliExtractor.RunCli | excel_extractor_cli.py:311-360 | The tool exits 0 exactly when the archive exists, holds Excel files, some data loads, the total selected is positive and the merge saves. When nothing is selected it exits 1 without merging. |
| ProfileDialogs.CleanTokens | profile_dialog.py:437 | The parsed tokens are non-empty and stripped. |
| ProfileDialogs.ParseColumns | profile_dialog.py:437 | Every parsed column is non-empty, has no surrounding whitespace and holds no comma. |
| ProfileDialogs.ParseJoinedColumns | profile_dialog.py:437 | Parsing the `", "`-joined display text of clean columns gives back the columns (a round trip). |
| ProfileDialogs.ParseColumnsRedisplayed | profile_dialog.py:437 | Displaying parsed columns and parsing them again gives the same list. |
| ProfileDialogs.RowEntry | profile_dialog.py:429-441 | A table row yields an entry only when both cells exist, the pattern is non-empty and the parsed column list is non-empty. |
| ProfileDialogs.RebuiltPatterns | profile_dialog.py:426-441 | Every rebuilt entry has a non-empty pattern and a non-empty list of clean columns. |
| ProfileDialogs.RebuildDisplayed | profile_dialog.py:426-441 | Loading clean patterns into the table and saving it unchanged gives back the same patterns. |
| ProfileDialogs.KeptFolders | profile_dialog.py:443-448 | The rebuilt watch folders are exactly the non-empty listed ones, and a duplicate-free list stays duplicate-free. |
| ProfileDialogs.DisplayedRows | profile_dialog.py:283-300 | Each pattern fills one row: the pattern, and its columns joined by `", "`. |
| ProfileDialogs.UseCurrentSelection | profile_dialog.py:579-594 | The form is filled only when the chosen (file, sheet) has a current selection, and the pattern it fills in is `file:F\|sheet:S`. |
| ProfileDialogs.SelectionRowRoundTrip | profile_dialog.py:583-639 | Accepting the filled-in texts gives the entry (`file:F\|sheet:S`, the current columns). |
| ProfileDialogs.AddedRowSaved | profile_dialog.py:626-650 | A row added by hand is saved as one entry when its text parses to some columns, and dropped otherwise. |
| ProfileDialogs.NewProfileName | profile_dialog.py:312-325 | The proposed name is not listed. It is "New Profile" when free, and otherwise "New Profile n" for the least n >= 1 not listed. |
| ProfileDialogs.NameSet | profile_dialog.py:318-321 | The loop collects exactly the listed names. |
| ProfileDialogs.IsListed | profile_dialog.py:496-505 | The scan reports exactly whether the folder is already listed. |
| ProfileDialogs.RebuildPatterns | profile_dialog.py:426-441 | The loop over table rows returns exactly RebuiltPatterns. |
| ProfileDialogs.RebuildWatchFolders | profile_dialog.py:443-448 | The loop over watch items returns exactly KeptFolders. |
| ProfileDialogs.CheckSaveName | profile_dialog.py:400-419 | A blank name is rejected. A changed name held by a listed profile is a conflict, and keeping the same name is allowed. |
| ProfileDialogs.ApplyForm | profile_dialog.py:421-448 | The profile takes the form's name, rebuilt patterns, kept folders, output folder and auto-process flag. |
| ProfileDialogs.StoreEdited | profile_dialog.py:450-458 | An unchanged name is saved in place, and the default name stays. A changed name is renamed in the manager: the profile map loses the old key and maps the new key to the same profile, every other entry stays, and the default name follows the rename. A refused rename (old name not stored, or new name taken) leaves the map and the default unchanged. The edited fields survive. |
| ProfileDialogs.ProfileDialog.constructor | profile_dialog.py:48-62 | A dialog starts with the given manager and listed names, no selected profile and an empty form. |
| ProfileDialogs.ProfileDialog.OnNewProfile | profile_dialog.py:310-339 | Without a manager nothing changes. Otherwise the created profile is appended to the list and selected, and the form shows it: its name, no output folder, the box unchecked, no pattern rows and no watch folders. With the list in step with the manager, the new name is unlisted, the manager gains exactly that name, holding the selected profile under it, and the list stays in step. |
| ProfileDialogs.ProfileDialog.OnSaveProfile | profile_dialog.py:394-474 | With no profile selected, a blank name or a name conflict, nothing changes. Otherwise the profile takes the rebuilt form. With the same name it is saved in place, and the default name stays. With a new name it is renamed: the map moves it to the new key, keeps every other entry, and the default follows. A rename the manager refuses leaves the map and the default unchanged. With a manager the list is then reloaded and the profile carrying the new name is selected again and shown, as Reselect states. Without a manager the list, the selection and the form stay. |
| ProfileDialogs.ProfileDialog.OnProfileSelected | profile_dialog.py:246-281 | The given profile becomes the selected one and the form shows it: name, output folder, check box, one row per pattern and its watch folders. A cleared selection drops the selected profile and leaves the form as it is. |
| ProfileDialogs.ProfileDialog.LoadProfiles | profile_dialog.py:227-244 | The selection is cleared. With a manager the list holds each stored name once, sorted, so it is in step with the manager. Without one the list is empty. |
| ProfileDialogs.ProfileDialog.Reselect | profile_dialog.py:460-468 | After the reload the list is sorted, duplicate-free and in step with the manager. A profile is selected again exactly when a stored profile carries the name. The selected one carries the name and is shown in the form; with none, the form is left. When no other stored profile carries the name, the one stored under it is selected. |
| ProfileDialogs.DisplayPatterns | profile_dialog.py:283-300 | The row loop of `load_patterns` produces exactly DisplayedRows: one row per pattern, in order. |
| ProfileDialogs.SortedNames | profile_dialog.py:241 | The listed names are sorted in code-point order, hold no duplicate, and are exactly the given names. |
| ProfileDialogs.FindNamed | profile_dialog.py:464-468 | The search stops at the first listed profile that carries the name, and runs past the end only when none does. |
| ProfileDialogs.KeptFoldersAll | profile_dialog.py:443-448 | A watch list without blank entries is saved whole. |
| ProfileDialogs.ShownFormSaved | profile_dialog.py:246-300 | Loading a profile into the form and saving it untouched gives back its own fields, when its name has no surrounding blanks, its patterns are clean and no watch folder is blank. |
| ProfileDialogs.ProfileDialog.OnBrowseWatchFolder | profile_dialog.py:487-508 | A folder already listed is refused, and a new non-empty one is appended, so the list stays duplicate-free. |
| ProfileDialogs.ProfileDialog.OnRemoveWatchFolder | profile_dialog.py:510-515 | The current item, if any, is removed, and a duplicate-free list then no longer holds it. |
| ProfileDialogs.ProfileDialog.OnAddPattern | profile_dialog.py:624-650 | Cancelling, a blank pattern or blank columns adds nothing. Otherwise one row with the stripped texts is appended. |
| ProfileDialogs.ProfileDialog.OnDeletePattern | profile_dialog.py:653-656 | A row in range is removed, and any other row number changes nothing. |
| PyLists.RemoveFirst | profile_manager.py:107 | `remove` takes out one occurrence. A duplicate-free list keeps no copy of the value. |
| PyLists.KeepFirst | excel_extractor_qt.py:242-247 | Keeping first occurrences gives a duplicate-free list with the same elements. |
| PyLists.SortStrings | excel_extractor_qt.py:252 | Sorting gives an ascending permutation of the list. |
| PyLists.SortedDistinct | excel_extractor_qt.py:252 | Sorting a duplicate-free list keeps it duplicate-free. |
| PyStrings.StripSpec | profile_manager.py:118-119 | The stripped text is a trimmed slice of the input, and it is empty exactly when the input is all whitespace. |
| PyStrings.StripIdempotent | profile_dialog.py:402 | Stripping twice is stripping once. |
| PyStrings.SplitJoin | excel_extractor_cli.py:193 | Joining the parts of a split with the separator rebuilds the text. |
| PyStrings.SplitCount | profile_manager.py:114-115 | A split yields one part more than the number of separators. |
| PyStrings.JoinSplit | profile_dialog.py:437 | Splitting separator-free parts joined by the separator gives the parts back. |
| PyStrings.ParseNatToString | excel_extractor_cli.py:193 | `int` reads back the decimal numeral of any natural number. |
| OrderedDicts.Put | profile_manager.py:214 | Assigning a key keeps the key order, appending a new key at the end, and changes the value of that key only. |
| OrderedDicts.Remove | excel_extractor_qt.py:1262 | `del` removes exactly that key and keeps the rest. |
| OrderedDicts.RemoveValid | excel_extractor_qt.py:1262-1265 | Deleting a key keeps keys distinct and shortens the dictionary by one exactly when the key was present. |
| OrderedDicts.RemoveAt | excel_extractor_qt.py:1262-1265 | In a valid dictionary, deleting the key at position i leaves exactly the entries before and after it, in their order. |

## Left out

- File-system work is not modelled: ZIP extraction, `os.walk` over the extraction folder, temporary directories, `os.path.exists`, `shutil` and app-data paths. Each entry's extraction success and each path's existence are parameters. The extra Excel files found by the `os.walk` pass (file_processor.py:57-63, excel_extractor_qt.py:214-229) are not added.
- pandas, xlrd and xlwt are not modelled. Opening a workbook and reading a sheet are parameters. Saving is a boolean parameter, and the worksheets written are a sequence of values.
- JSON persistence is not modelled: `load_all_profiles`, `save_settings` and `load_settings`. The profile store is an in-memory map, and its disk writes always succeed.
- Profiles.ProfileManager.SaveProfile: always reports success, because a failed disk write is not modelled.
- Profiles.ProfileManager.SetDefaultProfile: the result of `save_settings` is taken to be success.
- The file name derived by the `safe_name` regular expression is not modelled, because it depends on Python's Unicode `\w` class.
- `get_all_profiles` and `get_profile` are plain accessors of the map and have no own member.
- Profiles.ExtractionProfile.AddColumnPattern: merged columns are stated as a set union, because `list(set(...))` has no defined order.
- PyStrings.Lower: lower-cases ASCII letters only. Unicode case mapping is not modelled.
- PyStrings.ParseInt: accepts an optional sign followed by ASCII digits, after whitespace is stripped. Python's `int()` also accepts underscores and non-ASCII digits.
- Header-row detection is not modelled. `detect_descriptive_column_names` is imported by the Qt reader but defined in no file here. Its import failure falls back to a plain `header=None` read of the same sheet, so both branches read the same table.
- The Qt sheet keys `f"{file}_{sheet}"` and their `split('_', 1)` (excel_extractor_qt.py:839, 1302, 1697) belong to the widget code. They are not modelled, and the model claims no round trip for them.
- All Qt and wx widget code, signals, threads, `wx.CallAfter`, message boxes and the tree and grid views are left out. Handlers that show a message become outcome values.
- The wx front-end's own `extract_zip_file` and `read_excel_files` copies (excel_extractor_wx.py:563-696) are not part of this model. The shared module's versions are modelled.
- `app.py` only launches a front-end and is not part of this model.
- `input()` and `print` in the command line are not modelled. The typed answers are a function of (file, sheet), and the listing of column numbers is output only.
- QtExtractor.ReadExcelFiles: models the reading loop as written, including the xlrd-fallback overwrite. The corrected behaviour is QtReadOne/QtReadFiles.
- FileProcessor.ProcessAndMergeData: models the merge with the existing worksheet names taken from the sheets it created, not from `workbook.get_sheets()` (see Findings). The CLI's copy (excel_extractor_cli.py:212-309) makes the same call and is modelled by the same corrected merge.
- Tables.Table: column labels are modelled as their text. The Qt reader reads with `header=None` (excel_extractor_qt.py:361, 373), so its labels are the integers 0..n-1, and its checkboxes store those integers as the selection (excel_extractor_qt.py:981). A numeric header cell in the shared reader is a number too. Such labels are not distinguished from their text.
- FileProcessor.MergeSpecSaved: its "exactly when" holds for text labels. With a non-text label selected, `", ".join(cols)` in the summary (file_processor.py:262) raises a TypeError and the merge returns False, so every Qt merge that selects anything fails even with get_sheets corrected. The model does not capture this failure.
- FileProcessor.MergeSpecSaved: `saveOk` stands only for `workbook.save`. Every `add_sheet` and `write` is modelled as succeeding, so xlwt's refusals are not captured, though each makes the source return False:
  - When every selected column of a sheet shares an integer, boolean or datetime dtype, `subset_df.values` yields numpy scalars such as `numpy.int64`. xlwt's `write` rejects them as an unexpected data type (file_processor.py:238-244, excel_extractor_wx.py:962-967, excel_extractor_cli.py:274-280).
  - A worksheet may hold at most 65536 rows and 256 columns.
  - `add_sheet` refuses a name that contains `\`, `/`, `?` or `*`, or that starts with `'`.
  - `add_sheet` refuses a name longer than 31 characters. The dedupe name `f"{original_ws_name[:27]}_{counter}"` (file_processor.py:226) reaches 32 characters once the counter reaches 1000 with a base name of 27 or more characters.
- WxExtractor.WxExtractorApp.ProcessAndMerge: inherits the same gap, so the wx merge is modelled as saving in these cases where the source returns False.
- CliExtractor.ParseSelection: treats labels as text. In the source, `', '.join(selected_cols)` (excel_extractor_cli.py:199) sits inside the `try`, so with a non-text label, such as a numeric header cell from the shared reader, a valid number answer raises and the sheet's selection becomes `[]`. The model does not capture this.
- QtExtractor.QtExtractorApp.ApplyProfile: compares a pattern's column names with the labels as text. Against the Qt reader's integer labels, Python's `col in df.columns` never finds a stored name such as "0", so a profile selects nothing there. The model does not capture this.
- FileProcessor.MergeSpec: adding a worksheet is modelled as appending it. xlwt also refuses a sheet name that differs from an existing one only in letter case, while the dedupe test at file_processor.py:225 compares names case-sensitively. The model does not capture that refusal, so two names that differ only in case are both accepted.
- ProfileDialogs.ProfileDialog.LoadProfiles: clearing the list is modelled as always clearing the selection. Qt reports a cleared selection only when an item was current, and the dialog's selected profile is the current item's.
- ProfileDialogs.StoreEdited: reaches the manager through object references, as the Python code does. A profile aliased under two keys after `create_profile("")` is not tracked beyond what RenameProfile and SaveProfile state.

## Findings

| source | as written | input that shows it | evidently intended | confidence | as-written member | corrected member |
|---|---|---|---|---|---|---|
| file_processor.py:225 | The duplicate-name loop calls `workbook.get_sheets()` (as does excel_extractor_cli.py:261), which xlwt's Workbook does not provide, so the merge raises and returns False as soon as one sheet has a selection. The wx copy reads the private worksheet list instead (excel_extractor_wx.py:948). | One file `sales.xlsx` with sheet `Q1` holding a text column `Region`, and `Region` selected for it. | Compare against the names of the worksheets created so far, and save a workbook with one worksheet per selected sheet plus the summary. The correction alone saves only what xlwt accepts. The Qt front-end's labels are integers, and the summary's `", ".join` raises on them (see the Tables.Table line under Left out). A selection whose columns are all integer, boolean or date typed still fails at `write` (see the FileProcessor.MergeSpecSaved line). | medium, not executed | FileProcessor.MergeAsWrittenFails, FileProcessor.MergeAsWrittenExample | FileProcessor.ProcessAndMergeData, FileProcessor.MergeSpecContents |
| excel_extractor_qt.py:318-323 | The xlrd fallback stores the workbook under its sanitised name without the `_n` loop (lines 334-341) that the main path uses, so it overwrites an earlier file with the same sanitised name. | An earlier `a b.xls` stored as `a_b.xls`, then an unreadable `a_b.xls` that xlrd reads: the first file's sheets are lost. | Give the fallback the same fresh-key rule, so existing entries are never overwritten. | low, not executed | QtExtractor.QtFallbackOverwrites | QtExtractor.QtReadOneKeeps, QtExtractor.QtReadFilesKeeps |
