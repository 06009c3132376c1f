/** The column-header toggle of the shift table (`setSort`): clicking the
    column already sorted on reverses the direction; clicking another
    column sorts on it, newest first for the date and ascending otherwise. */
module TableSort {

  /** The columns the table sorts on: the fields of a shift and `net`. */
  datatype SortKey = Id | Date | Made | TipOut | Hours | Restaurant | Notes | Net

  datatype Direction = Asc | Desc

  datatype SortState = SortState(column: SortKey, dir: Direction)

  /** The table starts sorted on the date, newest first. */
  const Initial := SortState(Date, Desc)

  function Flip(d: Direction): Direction {
    if d == Asc then Desc else Asc
  }

  function SetSort(st: SortState, key: SortKey): (r: SortState)
    ensures r.column == key
    ensures st.column == key ==> r.dir != st.dir
    ensures st.column != key ==> (r.dir == Desc <==> key == Date)
  {
    if st.column == key then st.(dir := Flip(st.dir))
    else SortState(key, if key == Date then Desc else Asc)
  }

  /** Clicking the sorted column twice restores the order. */
  lemma ToggleTwice(st: SortState)
    ensures SetSort(SetSort(st, st.column), st.column) == st
  {
  }

  /** Two clicks on the same column, from any state, end on that column
      with the direction the first click chose reversed. */
  lemma ClickThenToggle(st: SortState, key: SortKey)
    ensures SetSort(SetSort(st, key), key).column == key
    ensures SetSort(SetSort(st, key), key).dir == Flip(SetSort(st, key).dir)
  {
  }
}
