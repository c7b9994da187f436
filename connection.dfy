/** The database connection as the migrator sees it. */
module Connection {

  /** A live connection, identified by the database configuration it was opened with. */
  datatype Handle = Handle(config: string)

  /** The transaction calls the migrator makes on the connection. */
  datatype Event = Begin | Commit
}
