/**
  The sort control shared by the amendment table and the by-bill view:
  a column and a direction.
 */
module SortState {
  datatype Sort<F> = Sort(field: F, ascending: bool)

  /** Choosing a column: the current column flips the direction, any other
      column becomes current and starts ascending. */
  function Choose<F(==)>(s: Sort<F>, f: F): (r: Sort<F>)
    ensures r.field == f
    ensures r.ascending <==> (f != s.field || !s.ascending)
  {
    if f == s.field then s.(ascending := !s.ascending) else Sort(f, true)
  }

  /** Choosing the current column twice restores the state. */
  lemma ChooseTwice<F>(s: Sort<F>)
    ensures Choose(Choose(s, s.field), s.field) == s
  {
  }

  /** After choosing a new column, choosing it again sorts it descending. */
  lemma ChooseNewThenAgain<F>(s: Sort<F>, f: F)
    requires f != s.field
    ensures Choose(Choose(s, f), f) == Sort(f, false)
  {
  }
}
