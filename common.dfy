/** Wrappers shared by every module of the model. */
module Common {

  datatype Option<+T> = None | Some(value: T)

  datatype Result<+T, +E> = Ok(value: T) | Err(error: E)

  /** One SQLite database file as the code sees it: either every query on it
      succeeds against the tables held here, or every query on it raises
      `sqlite3.Error`, the first one included (a file that cannot be
      opened or read: locked, corrupt, not a database). A file that opens
      but lacks a table, where some queries succeed and others fail, is not
      modelled. */
  datatype Db<+T> = Available(tables: T) | Unavailable

  /** Python truthiness of an optional text column: present and non-empty. */
  predicate Truthy(o: Option<string>)
  {
    o.Some? && o.value != ""
  }

  /** Python's `a or b` where `a` is an optional text value. */
  function OrElse(a: Option<string>, b: string): string
  {
    if Truthy(a) then a.value else b
  }
}
