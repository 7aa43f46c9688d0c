/** A row of the `nodes` table as the server returns it (`SELECT * FROM nodes`). */
module Records {
  import opened Wrappers

  /** The columns the client reads; `deadline` and `created_at` are not read by the modelled code. */
  datatype Row = Row(id: int, title: string, parentId: Option<int>, priority: int, isCompleted: bool)

  /** JavaScript truthiness of `row.parent_id`: `null` and `0` are falsy. */
  predicate HasParent(row: Row) {
    row.parentId.Some? && row.parentId.value != 0
  }
}
