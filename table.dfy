/** The users tables as gorm queries them: rows in sequence order. Under
    the uniqueness the repositories keep, at most one row matches a lookup,
    so which order gorm scans in is immaterial. */
module Table {
  import opened Wrappers

  /**
    `db.First(&row, "column = ?", value)`: the index of the first row, in
    sequence order, whose `column` holds `value`, or `None` when no row does
    (gorm's ErrRecordNotFound, zero rows affected).
  */
  function FirstWhere<Row>(rows: seq<Row>, column: Row -> string, value: string): (r: Option<nat>)
    ensures r.Some? ==> r.value < |rows| && column(rows[r.value]) == value
    ensures r.Some? ==> forall j :: 0 <= j < r.value ==> column(rows[j]) != value
    ensures r.None? <==> forall j :: 0 <= j < |rows| ==> column(rows[j]) != value
  {
    if |rows| == 0 then None
    else if column(rows[0]) == value then Some(0)
    else match FirstWhere(rows[1..], column, value)
      case None => None
      case Some(i) => Some(i + 1)
  }
}
