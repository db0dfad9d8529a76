/** The request and record shapes shared between the host process and the UI
    (packages/shared/src/ipc.ts). */
module Ipc {

  /** Parameters of `db.connect`. The password is kept, as the source passes it
      straight to the database client. */
  datatype DbConnectParams = DbConnectParams(
    host: string,
    port: int,
    database: string,
    user: string,
    password: string)

  /** One line of the query-history log. */
  datatype HistoryEntry = HistoryEntry(timestamp: string, sql: string)
}
