/** How a database transaction may end. */
module Transactions {

  /** A commit is stored and acknowledged, stored without the caller learning of it, or refused. */
  datatype Commit = Acknowledged | Unacknowledged | Refused
}
