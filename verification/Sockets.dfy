/** What the servers see of a non-blocking socket. */
module Sockets {

  /** What recv says when there are no more bytes to read now. */
  datatype Quiet = Again | Failed | Closed
}
