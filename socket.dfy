/**
 * `LocaleSocket` in server.py as a state machine: whether the listening
 * socket is open, what became of the last accepted connection, and what
 * has been sent. The operating-system calls behind it (socket creation,
 * bind, listen, accept, recv, send, close) are abstract: the outcome of
 * bind and the text one recv yields are parameters.
 */
module Sockets {
  import opened Wrappers
  import opened Request

  /** What `_connection` holds. */
  datatype Connection =
    | NoConnection  // None
    | Live          // the socket `accept` returned, still open
    | Closed        // that socket after `respond` closed it: still stored, no longer usable

  /** Why a socket operation raises, past its assertions. */
  datatype SocketError =
    | BindFailed         // `bind` raised; `open` re-raises it after closing
    | AttributeError     // `respond` with no connection: `None.send`
    | BadFileDescriptor  // `respond` on a connection it already closed: OSError

  class LocaleSocket {
    const host: string
    const port: int
    const bufferSize: int
    const maxQueuedConnections: int
    /** `_socket is not None`. */
    var isOpen: bool
    var connection: Connection
    /** Every payload sent so far, in order. */
    var sent: seq<string>

    /** A connection is only ever held while the listening socket is open. */
    ghost predicate Valid()
      reads this
    {
      !isOpen ==> connection == NoConnection
    }

    constructor(host: string, port: int, bufferSize: int, maxQueuedConnections: int)
      ensures Valid()
      ensures this.host == host && this.port == port
      ensures this.bufferSize == bufferSize && this.maxQueuedConnections == maxQueuedConnections
      ensures !isOpen && connection == NoConnection && sent == []
    {
      this.host := host;
      this.port := port;
      this.bufferSize := bufferSize;
      this.maxQueuedConnections := maxQueuedConnections;
      isOpen := false;
      connection := NoConnection;
      sent := [];
    }

    /**
     * `open`: only a closed socket may be opened. A bind that fails closes
     * the socket again before the error propagates.
     */
    method Open(bindSucceeds: bool) returns (r: Result<(), SocketError>)
      requires Valid() && !isOpen
      modifies this
      ensures Valid()
      ensures bindSucceeds ==> r == Ok(()) && isOpen
      ensures !bindSucceeds ==> r == Err(BindFailed) && !isOpen
      ensures connection == NoConnection && sent == old(sent)
    {
      isOpen := true;
      if !bindSucceeds {
        Close();
        return Err(BindFailed);
      }
      r := Ok(());
    }

    /** `close`: only an open socket may be closed; the connection, if any, goes with it. */
    method Close()
      requires isOpen
      modifies this
      ensures Valid()
      ensures !isOpen && connection == NoConnection && sent == old(sent)
    {
      if connection != NoConnection {
        connection := NoConnection;
      }
      isOpen := false;
    }

    /**
     * `listen`: accepts a connection, keeps it, and builds the request from
     * the text it received, raising as `BrowserRequest` does.
     */
    method Listen(received: string) returns (r: Result<BrowserRequest, ParseError>)
      requires Valid() && isOpen
      modifies this
      ensures Valid()
      ensures r == Parse(received)
      ensures isOpen && connection == Live && sent == old(sent)
    {
      connection := Live;
      r := NewRequest(received);
    }

    /**
     * `respond`: sends the payload on the accepted connection and closes it.
     * Without a connection, or on one already closed, it raises and sends
     * nothing.
     */
    method Respond(payload: string) returns (r: Result<(), SocketError>)
      requires Valid() && isOpen
      modifies this
      ensures Valid() && isOpen
      ensures old(connection) == Live ==> r == Ok(()) && sent == old(sent) + [payload] && connection == Closed
      ensures old(connection) == NoConnection ==> r == Err(AttributeError) && sent == old(sent) && connection == NoConnection
      ensures old(connection) == Closed ==> r == Err(BadFileDescriptor) && sent == old(sent) && connection == Closed
    {
      match connection
      case NoConnection =>
        r := Err(AttributeError);
      case Closed =>
        r := Err(BadFileDescriptor);
      case Live =>
        sent := sent + [payload];
        connection := Closed;
        r := Ok(());
    }
  }

  /**
   * One connection carries one response: after a request has been answered,
   * a second `respond` before the next `listen` raises and sends nothing,
   * and `close` then leaves the socket closed with exactly one payload sent.
   */
  method RespondOncePerConnection(received: string, first: string, second: string)
    returns (r1: Result<(), SocketError>, r2: Result<(), SocketError>, sent: seq<string>, stillOpen: bool)
    ensures r1 == Ok(()) && r2 == Err(BadFileDescriptor)
    ensures sent == [first] && !stillOpen
  {
    var s := new LocaleSocket("", 80, 1024, 5);
    var bound := s.Open(true);
    var request := s.Listen(received);
    r1 := s.Respond(first);
    r2 := s.Respond(second);
    s.Close();
    sent, stillOpen := s.sent, s.isOpen;
  }

  /** A socket whose bind fails ends closed and can be opened again. */
  method ReopenAfterFailedBind() returns (r1: Result<(), SocketError>, r2: Result<(), SocketError>, open: bool)
    ensures r1 == Err(BindFailed) && r2 == Ok(()) && open
  {
    var s := new LocaleSocket("", 80, 1024, 5);
    r1 := s.Open(false);
    r2 := s.Open(true);
    open := s.isOpen;
  }
}
