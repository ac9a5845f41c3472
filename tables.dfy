/**
 * The data every front-end passes around. A pandas DataFrame becomes a
 * Table: its column names and its rows of optional cells (a missing cell is
 * what pandas reports as NaN). Loaded data is `file -> sheet -> Table`; a
 * column selection is `file -> sheet -> [column names]`.
 */
module Tables {
  import opened PyStrings
  import opened OrderedDicts

  datatype Cell = Text(text: string) | Number(number: int) | Flag(flag: bool)

  datatype Table = Table(columns: seq<string>, rows: seq<seq<Option<Cell>>>)

  /** What pandas guarantees of a frame read with a header row: distinct
      column names (duplicates are renamed on reading) and rectangular rows. */
  predicate WellFormed(t: Table) {
    && Distinct(t.columns)
    && forall r :: 0 <= r < |t.rows| ==> |t.rows[r]| == |t.columns|
  }

  /** `df.empty`: no rows or no columns. */
  predicate IsEmpty(t: Table) {
    |t.columns| == 0 || |t.rows| == 0
  }

  /** `str(value)` for a cell value. */
  function CellText(c: Cell): string {
    match c
    case Text(s) => s
    case Number(n) => IntToString(n)
    case Flag(b) => if b then "True" else "False"
  }

  type Sheets = Dict<Table>
  type FileData = Dict<Sheets>
  type Selection = Dict<Dict<seq<string>>>

  predicate ValidFileData(fd: FileData) {
    && Valid(fd)
    && forall i :: 0 <= i < |fd| ==> Valid(fd[i].1)
  }

  predicate ValidSelection(sel: Selection) {
    && Valid(sel)
    && forall i :: 0 <= i < |sel| ==> Valid(sel[i].1)
  }

  /** `sel[f][s]` when both keys are present. */
  function Lookup2<V>(d: Dict<Dict<V>>, f: string, s: string): Option<V> {
    match Get(d, f)
    case None => None
    case Some(inner) => Get(inner, s)
  }

  /** The columns selected for sheet s of file f: a missing file or sheet
      selects nothing. */
  function SelectedFor(sel: Selection, f: string, s: string): (cols: seq<string>)
    ensures Lookup2(sel, f, s).Some? ==> cols == Lookup2(sel, f, s).value
    ensures Lookup2(sel, f, s).None? ==> cols == []
  {
    GetOr(GetOr(sel, f, []), s, [])
  }

  /** Sum of the list lengths of one file's sheets. */
  function SheetTotal(sheets: Dict<seq<string>>): nat {
    if sheets == [] then 0 else |sheets[0].1| + SheetTotal(sheets[1..])
  }

  /** The number of selected columns, summed over every sheet of every file. */
  function TotalSelected(sel: Selection): nat {
    if sel == [] then 0 else SheetTotal(sel[0].1) + TotalSelected(sel[1..])
  }

  /** Every list of a selection is empty. */
  predicate NothingSelected(sel: Selection) {
    forall i, j :: 0 <= i < |sel| && 0 <= j < |sel[i].1| ==> sel[i].1[j].1 == []
  }

  lemma {:induction false} SheetTotalZero(sheets: Dict<seq<string>>)
    ensures SheetTotal(sheets) == 0 <==> forall j :: 0 <= j < |sheets| ==> sheets[j].1 == []
  {
    if sheets != [] {
      SheetTotalZero(sheets[1..]);
      assert forall j :: 1 <= j < |sheets| ==> sheets[j] == sheets[1..][j - 1];
    }
  }

  /** The total is zero exactly when no list holds a column. */
  lemma {:induction false} TotalZero(sel: Selection)
    ensures TotalSelected(sel) == 0 <==> NothingSelected(sel)
  {
    if sel != [] {
      TotalZero(sel[1..]);
      SheetTotalZero(sel[0].1);
      assert forall i :: 1 <= i < |sel| ==> sel[i] == sel[1..][i - 1];
    }
  }

  lemma {:induction false} SheetTotalAppend(sheets: Dict<seq<string>>, s: string, cols: seq<string>)
    ensures SheetTotal(sheets + [(s, cols)]) == SheetTotal(sheets) + |cols|
  {
    if sheets != [] {
      assert (sheets + [(s, cols)])[1..] == sheets[1..] + [(s, cols)];
      SheetTotalAppend(sheets[1..], s, cols);
    }
  }

  lemma {:induction false} TotalAppend(sel: Selection, f: string, sheets: Dict<seq<string>>)
    ensures TotalSelected(sel + [(f, sheets)]) == TotalSelected(sel) + SheetTotal(sheets)
  {
    if sel != [] {
      assert (sel + [(f, sheets)])[1..] == sel[1..] + [(f, sheets)];
      TotalAppend(sel[1..], f, sheets);
    }
  }

  /** `sel[f][s]` is a lookup in the file entry `sel.get(f, {})`. */
  lemma Lookup2File<V>(d: Dict<Dict<V>>, f: string, s: string)
    ensures Lookup2(d, f, s) == Get(GetOr(d, f, []), s)
  {
  }

  /** Looking up two levels deep after replacing one file entry. */
  lemma Lookup2Put<V>(d: Dict<Dict<V>>, f: string, inner: Dict<V>, f': string, s': string)
    ensures Lookup2(Put(d, f, inner), f', s') == if f' == f then Get(inner, s') else Lookup2(d, f', s')
  {
  }

  /** Looking up two levels deep after deleting one file entry. */
  lemma Lookup2Remove<V>(d: Dict<Dict<V>>, f: string, f': string, s': string)
    ensures Lookup2(Remove(d, f), f', s') == if f' == f then None else Lookup2(d, f', s')
  {
    if f' == f {
      assert Get(Remove(d, f), f).None?;
    }
  }
}
