/**
  The amendment table: the search box, the column sort, the two-item
  selection for a comparison and the comparison link.
 */
module AmendmentList {
  import opened Text
  import opened Wrappers
  import opened Amendments
  import Seqs
  import SortState

  // ---------------------------------------------------------------------
  // Search
  // ---------------------------------------------------------------------

  /** The lower-cased term occurs in the lower-cased bill, LCO or calendar number. */
  predicate MatchesTerm(a: Amendment, term: string) {
    var t := Lower(term);
    Contains(Lower(a.billNumber), t) || Contains(Lower(a.lcoNumber), t) || Contains(Lower(a.calNumber), t)
  }

  function Matcher(term: string): Amendment -> bool {
    (a: Amendment) => MatchesTerm(a, term)
  }

  lemma EmptyTermMatches(a: Amendment)
    ensures MatchesTerm(a, "")
  {
    assert Lower("") == "";
    assert StartsWith(Lower(a.billNumber), "");
  }

  /** The amendments the search keeps, in list order; the empty term keeps all. */
  function Search(list: seq<Amendment>, term: string): (r: seq<Amendment>)
    ensures forall x :: x in r <==> x in list && MatchesTerm(x, term)
    ensures Seqs.SubsequenceOf(r, list)
    ensures term == "" ==> r == list
  {
    if term == "" then
      forall i | 0 <= i < |list| ensures Matcher(term)(list[i]) {
        EmptyTermMatches(list[i]);
      }
      Seqs.FilterAll(list, Matcher(term));
      Seqs.Filter(list, Matcher(term))
    else
      Seqs.Filter(list, Matcher(term))
  }

  // ---------------------------------------------------------------------
  // Sorting
  // ---------------------------------------------------------------------

  datatype Field = BillNumber | Date | LcoLink | BillLink | LcoNumber | CalNumber | ChamberField

  /** The table opens sorted by date, ascending. */
  const InitialSort: SortState.Sort<Field> := SortState.Sort(Date, true)

  /** `amendment[field]`; the records here always carry every field. */
  function FieldValue(a: Amendment, f: Field): Option<string> {
    match f
    case BillNumber => Some(a.billNumber)
    case Date => Some(a.date)
    case LcoLink => Some(a.lcoLink)
    case BillLink => Some(a.billLink)
    case LcoNumber => Some(a.lcoNumber)
    case CalNumber => Some(a.calNumber)
    case ChamberField => Some(if a.chamber == Senate then "senate" else "house")
  }

  /** A missing value or the empty string. */
  predicate Falsy(v: Option<string>) {
    v.None? || v.value == ""
  }

  /** The table's comparator as written: two missing values tie; a falsy
      value goes last; otherwise `1` or `-1` by string order, and never `0`,
      even for equal values. */
  function CompareAsWritten(x: Option<string>, y: Option<string>, ascending: bool): int {
    if x.None? && y.None? then 0
    else if Falsy(x) then 1
    else if Falsy(y) then -1
    else if ascending then (if Less(y.value, x.value) then 1 else -1)
    else (if Less(x.value, y.value) then 1 else -1)
  }

  /** As written, a non-empty value compares below itself, two empty
      values each claim to go after the other, and so do a missing and an
      empty value: the comparator is not consistent. */
  lemma AsWrittenInconsistent(x: string, ascending: bool)
    requires x != ""
    ensures CompareAsWritten(Some(x), Some(x), ascending) == -1
    ensures CompareAsWritten(Some(""), Some(""), ascending) == 1
    ensures CompareAsWritten(None, Some(""), ascending) == 1
    ensures CompareAsWritten(Some(""), None, ascending) == 1
  {
    LessIrreflexive(x);
  }

  /** The comparator the table evidently intends: falsy values tie with
      each other and go last, equal values tie, and other values follow
      string order in the chosen direction. */
  function Compare(x: Option<string>, y: Option<string>, ascending: bool): (c: int)
    ensures -1 <= c <= 1
    ensures c == 0 <==> (Falsy(x) && Falsy(y)) || x == y
    ensures Falsy(x) && !Falsy(y) ==> c == 1
    ensures !Falsy(x) && Falsy(y) ==> c == -1
    ensures !Falsy(x) && !Falsy(y) ==>
      (c < 0 <==> if ascending then Less(x.value, y.value) else Less(y.value, x.value))
  {
    if Falsy(x) && Falsy(y) then 0
    else if Falsy(x) then 1
    else if Falsy(y) then -1
    else if x == y then
      LessIrreflexive(x.value);
      0
    else
      LessStrict(x.value, y.value);
      if ascending then (if Less(y.value, x.value) then 1 else -1)
      else (if Less(x.value, y.value) then 1 else -1)
  }

  /** The correction changes only the ties: wherever the comparator as
      written could answer `0` or the two values differ and are not both
      falsy, both give the same answer. */
  lemma CompareAgreesOffTies(x: Option<string>, y: Option<string>, ascending: bool)
    requires x != y && !(Falsy(x) && Falsy(y))
    ensures Compare(x, y, ascending) == CompareAsWritten(x, y, ascending)
  {
  }

  /** Swapping the operands negates the corrected comparator. */
  lemma CompareAntisymmetric(x: Option<string>, y: Option<string>, ascending: bool)
    ensures Compare(x, y, ascending) == -Compare(y, x, ascending)
  {
    if !Falsy(x) && !Falsy(y) && x != y {
      LessTrichotomy(x.value, y.value);
    }
  }

  lemma CompareTransitive(x: Option<string>, y: Option<string>, z: Option<string>, ascending: bool)
    requires Compare(x, y, ascending) <= 0 && Compare(y, z, ascending) <= 0
    ensures Compare(x, z, ascending) <= 0
  {
    if !Falsy(x) && !Falsy(y) && !Falsy(z) && x != y && y != z {
      if ascending {
        LessTransitive(x.value, y.value, z.value);
      } else {
        LessTransitive(z.value, y.value, x.value);
      }
    }
  }

  /** "May come first" for the table's sort. */
  function Leq(sort: SortState.Sort<Field>): (Amendment, Amendment) -> bool {
    (a: Amendment, b: Amendment) => Compare(FieldValue(a, sort.field), FieldValue(b, sort.field), sort.ascending) <= 0
  }

  lemma LeqIsTotalPreorder(sort: SortState.Sort<Field>)
    ensures Seqs.TotalPreorder(Leq(sort))
  {
    var f, up := sort.field, sort.ascending;
    forall a, b ensures Leq(sort)(a, b) || Leq(sort)(b, a) {
      CompareAntisymmetric(FieldValue(a, f), FieldValue(b, f), up);
    }
    forall a, b, c | Leq(sort)(a, b) && Leq(sort)(b, c) ensures Leq(sort)(a, c) {
      CompareTransitive(FieldValue(a, f), FieldValue(b, f), FieldValue(c, f), up);
    }
  }

  /** The table's rows: the search result, rearranged into the chosen order;
      rows the order cannot tell apart stay in search order, as `sort` is stable. */
  function SortedRows(list: seq<Amendment>, term: string, sort: SortState.Sort<Field>): (r: seq<Amendment>)
    ensures multiset(r) == multiset(Search(list, term))
    ensures Seqs.SortedBy(r, Leq(sort))
    ensures forall z :: Seqs.Filter(r, Seqs.Ties(Leq(sort), z)) == Seqs.Filter(Search(list, term), Seqs.Ties(Leq(sort), z))
  {
    LeqIsTotalPreorder(sort);
    Seqs.SortBy(Search(list, term), Leq(sort))
  }

  // ---------------------------------------------------------------------
  // Selection for a comparison
  // ---------------------------------------------------------------------

  function Other(lco: string): string -> bool {
    (n: string) => n != lco
  }

  /** Clicking an amendment: a selected one is removed; another one is
      appended, and the oldest selection is dropped beyond two. */
  function Toggle(sel: seq<string>, lco: string): (r: seq<string>)
    ensures lco in sel ==> lco !in r && (forall x :: x in r <==> x in sel && x != lco) && Seqs.SubsequenceOf(r, sel)
    ensures lco !in sel ==> |r| > 0 && r[|r| - 1] == lco && r[..|r| - 1] == (if |sel| >= 2 then sel[1..] else sel)
  {
    if lco in sel then Seqs.Filter(sel, Other(lco))
    else
      var next := sel + [lco];
      if |next| > 2 then
        assert next[1..][..|next| - 2] == sel[1..];
        next[1..]
      else next
  }

  /** The selection never holds the same amendment twice nor more than two. */
  lemma ToggleKeepsSelectionValid(sel: seq<string>, lco: string)
    requires Seqs.NoDuplicates(sel) && |sel| <= 2
    ensures Seqs.NoDuplicates(Toggle(sel, lco)) && |Toggle(sel, lco)| <= 2
  {
    var r := Toggle(sel, lco);
    if lco !in sel {
      var kept := r[..|r| - 1];
      forall i, j | 0 <= i < j < |r| ensures r[i] != r[j] {
        assert j == |r| - 1;
        assert r[i] == kept[i];
        assert kept[i] in sel;
      }
    } else {
      Seqs.FilterLength(sel, Other(lco));
      assert r == Seqs.Filter(sel, Other(lco));
      SubsequenceNoDuplicates(r, sel);
    }
  }

  /** A subsequence of a duplicate-free sequence is duplicate-free and no longer. */
  lemma {:induction false} SubsequenceNoDuplicates<T>(a: seq<T>, b: seq<T>)
    requires Seqs.SubsequenceOf(a, b) && Seqs.NoDuplicates(b)
    ensures Seqs.NoDuplicates(a) && |a| <= |b|
    decreases |b|
  {
    if |a| > 0 {
      if a[0] == b[0] {
        SubsequenceNoDuplicates(a[1..], b[1..]);
        forall j | 0 < j < |a| ensures a[0] != a[j] {
          assert a[j] == a[1..][j - 1];
          SubsequenceMembers(a[1..], b[1..]);
          var k :| 0 <= k < |b[1..]| && b[1..][k] == a[j];
          assert b[k + 1] == a[j];
        }
      } else {
        SubsequenceNoDuplicates(a, b[1..]);
      }
    }
  }

  lemma {:induction false} SubsequenceMembers<T>(a: seq<T>, b: seq<T>)
    requires Seqs.SubsequenceOf(a, b)
    ensures forall i :: 0 <= i < |a| ==> exists k :: 0 <= k < |b| && b[k] == a[i]
    decreases |b|
  {
    if |a| > 0 {
      if a[0] == b[0] {
        SubsequenceMembers(a[1..], b[1..]);
        forall i | 0 < i < |a| ensures exists k :: 0 <= k < |b| && b[k] == a[i] {
          assert a[i] == a[1..][i - 1];
          var k :| 0 <= k < |b[1..]| && b[1..][k] == a[1..][i - 1];
          assert b[k + 1] == a[i];
        }
      } else {
        SubsequenceMembers(a, b[1..]);
        forall i | 0 <= i < |a| ensures exists k :: 0 <= k < |b| && b[k] == a[i] {
          var k :| 0 <= k < |b[1..]| && b[1..][k] == a[i];
          assert b[k + 1] == a[i];
        }
      }
    }
  }

  /** Selecting an amendment while fewer than two are selected, then
      clicking it again, restores the selection. */
  lemma ToggleUndo(sel: seq<string>, lco: string)
    requires lco !in sel && |sel| < 2
    ensures Toggle(Toggle(sel, lco), lco) == sel
  {
    Seqs.FilterConcat(sel, [lco], Other(lco));
    Seqs.FilterAll(sel, Other(lco));
    assert Toggle(sel, lco) == sel + [lco];
  }

  /** `handleCompare`: with exactly two selected and a non-empty list, the
      comparison page of the first row's bill with the two LCO numbers. */
  function CompareTarget(sel: seq<string>, list: seq<Amendment>): (r: Option<string>)
    ensures r.Some? <==> |sel| == 2 && |list| > 0
    ensures r.Some? ==>
      (var head := "/dashboard/bill/" + list[0].billNumber + "/compare?left=" + sel[0];
       var tail := "&right=" + sel[1];
       && |r.value| == |head| + |tail|
       && StartsWith(r.value, head)
       && r.value[|head|..] == tail)
  {
    if |sel| == 2 && |list| > 0 then
      var head := "/dashboard/bill/" + list[0].billNumber + "/compare?left=" + sel[0];
      var url := head + "&right=" + sel[1];
      assert url[..|head|] == head;
      assert url[|head|..] == "&right=" + sel[1];
      Some(url)
    else None
  }
}
