/** What one client connection leaves behind, shared by the three request handlers. */
module Connection {
  import opened Wrappers

  /** The state after the exchange (the server's buffer, or the buffer file for
      a handler that opens a buffer session per request), the reply written to
      the client (if any), whether an exception escaped the handler, and
      whether the socket was closed. */
  datatype Exchange<S, R> = Exchange(state: S, reply: Option<R>, raised: bool, closed: bool)

  /** The `finally: close()` that ends every handler. */
  function Close<S, R>(e: Exchange<S, R>): Exchange<S, R>
  {
    e.(closed := true)
  }
}
