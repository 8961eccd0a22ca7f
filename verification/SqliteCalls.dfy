/** The SQLite calls that may fail while a database is rebuilt. */
module SqliteCalls {
  /** Which of them work; refused lists the rows whose insert fails. */
  datatype Sqlite = Sqlite(opens: bool, begins: bool, prepares: bool, refused: set<nat>, records: bool, commits: bool)
}
