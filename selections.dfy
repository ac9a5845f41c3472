/**
 * Editing a column selection `file -> sheet -> [columns]` the way the
 * front-ends' checkboxes and buttons do: toggling one column of one sheet,
 * and overwriting one sheet's whole list.
 */
module Selections {
  import opened PyStrings
  import opened OrderedDicts
  import opened Tables
  import opened PyLists

  /** A checkbox change on one list: checking appends the column unless it
      is listed, unchecking removes its first occurrence if it is listed
      (ToggledSpec). */
  function Toggled(cols: seq<string>, column: string, checked: bool): seq<string> {
    if checked then
      if column in cols then cols else cols + [column]
    else if column in cols then RemoveFirst(cols, column)
    else cols
  }

  lemma ToggledSpec(cols: seq<string>, column: string, checked: bool)
    ensures var r := Toggled(cols, column, checked);
      && (checked ==> column in r && cols <= r && |r| <= |cols| + 1)
      && (!checked && column in cols ==> multiset(r) == multiset(cols) - multiset{column})
      && (!checked && column !in cols ==> r == cols)
      && (forall x :: x != column ==> (x in r <==> x in cols))
      && (Distinct(cols) ==> Distinct(r))
      && (Distinct(cols) && !checked ==> column !in r)
  {
    var r := Toggled(cols, column, checked);
    if !checked && column in cols {
      assert forall x :: x != column ==> (x in r <==> x in multiset(r));
      assert forall x :: x != column ==> (x in cols <==> x in multiset(cols));
    }
  }

  /** `sel[f][s] = cols`, where `sel[f]` is created empty first when missing. */
  function SetSheet(sel: Selection, f: string, s: string, cols: seq<string>): Selection {
    Put(sel, f, Put(GetOr(sel, f, []), s, cols))
  }

  /** The file dictionary `sel[f]` of a valid selection is itself valid. */
  lemma FileEntryValid(sel: Selection, f: string)
    requires ValidSelection(sel)
    ensures Valid(GetOr(sel, f, []))
  {
    if HasKey(sel, f) {
      var i := HasKeyAt(sel, f);
      GetAt(sel, i);
    }
  }

  /** Replacing the file entry f of a valid selection by a valid dictionary
      keeps the selection valid. */
  lemma PutFileValid(sel: Selection, f: string, inner: Dict<seq<string>>)
    requires ValidSelection(sel) && Valid(inner)
    ensures ValidSelection(Put(sel, f, inner))
  {
    PutValid(sel, f, inner);
    var r := Put(sel, f, inner);
    PutMembers(sel, f, inner);
    forall i | 0 <= i < |r| ensures Valid(r[i].1) {
      assert r[i] in r;
      if r[i] != (f, inner) {
        var j :| 0 <= j < |sel| && sel[j] == r[i];
      }
    }
  }

  lemma RemoveFileValid(sel: Selection, f: string)
    requires ValidSelection(sel)
    ensures ValidSelection(Remove(sel, f))
  {
    RemoveValid(sel, f);
    var r := Remove(sel, f);
    RemoveMembers(sel, f);
    forall i | 0 <= i < |r| ensures Valid(r[i].1) {
      assert r[i] in r;
      var j :| 0 <= j < |sel| && sel[j] == r[i];
    }
  }

  /** Setting one sheet's list changes that list and nothing else, keeps the
      selection valid, and adds no key that was there already. */
  lemma SetSheetAt(sel: Selection, f: string, s: string, cols: seq<string>, f': string, s': string)
    requires ValidSelection(sel)
    ensures Lookup2(SetSheet(sel, f, s, cols), f', s') ==
      if f' == f && s' == s then Some(cols) else Lookup2(sel, f', s')
    ensures ValidSelection(SetSheet(sel, f, s, cols))
  {
    FileEntryValid(sel, f);
    PutValid(GetOr(sel, f, []), s, cols);
    PutFileValid(sel, f, Put(GetOr(sel, f, []), s, cols));
  }

  /** When the sheet is already listed, setting its list keeps every key of
      the selection and of each file entry, in place. */
  lemma SetSheetKeys(sel: Selection, f: string, s: string, cols: seq<string>, f': string)
    requires HasKey(sel, f) && HasKey(GetOr(sel, f, []), s)
    ensures Keys(SetSheet(sel, f, s, cols)) == Keys(sel)
    ensures Keys(GetOr(SetSheet(sel, f, s, cols), f', [])) == Keys(GetOr(sel, f', []))
  {
  }

  /** No list of the selection holds a column twice. */
  predicate NoDuplicates(sel: Selection) {
    forall e, e2 :: e in sel && e2 in e.1 ==> Distinct(e2.1)
  }

  lemma SetSheetNoDuplicates(sel: Selection, f: string, s: string, cols: seq<string>)
    requires NoDuplicates(sel) && Distinct(cols)
    ensures NoDuplicates(SetSheet(sel, f, s, cols))
  {
    var inner := GetOr(sel, f, []);
    var inner' := Put(inner, s, cols);
    assert forall e2 :: e2 in inner' ==> Distinct(e2.1) by {
      PutMembers(inner, s, cols);
      if HasKey(sel, f) {
        GetMember(sel, f);
      }
    }
    PutFileNoDuplicates(sel, f, inner');
  }

  /** In a selection without duplicates the list `sel[f][s]` (or the
      empty default) has none either. */
  lemma SelectedDistinct(sel: Selection, f: string, s: string)
    requires NoDuplicates(sel)
    ensures Distinct(SelectedFor(sel, f, s))
  {
    var inner := GetOr(sel, f, []);
    if HasKey(sel, f) {
      GetMember(sel, f);
      if HasKey(inner, s) {
        GetMember(inner, s);
      }
    }
  }

  /** Replacing a file entry by one whose lists have no duplicates. */
  lemma PutFileNoDuplicates(sel: Selection, f: string, inner: Dict<seq<string>>)
    requires NoDuplicates(sel)
    requires forall e2 :: e2 in inner ==> Distinct(e2.1)
    ensures NoDuplicates(Put(sel, f, inner))
  {
    PutMembers(sel, f, inner);
  }

  lemma RemoveFileNoDuplicates(sel: Selection, f: string)
    requires NoDuplicates(sel)
    ensures NoDuplicates(Remove(sel, f))
  {
    RemoveMembers(sel, f);
  }
}
