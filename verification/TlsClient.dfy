/**
 * The teardown of an established client connection. The socket's close handler and the TLS closed
 * callback call each other; only the `closed` flag ends the recursion.
 */
module TlsClient {
  datatype Emitted = Destroyed | TlsClosed | SocketClosed | SocketError

  /** `listening` tells whether the socket still has its handlers, `tlsOpen` whether the TLS side can still close. */
  datatype Conn = Conn(closed: bool, tlsOpen: bool, listening: bool,
                       disconnectTimer: bool, retransmitTimer: bool, emitted: seq<Emitted>)

  /** What closing the TLS side leads to, all re-entrant calls included. */
  function AfterTlsClose(c: Conn): Conn {
    if !c.tlsOpen then c
    else
      var quiet := c.(closed := true, tlsOpen := false, disconnectTimer := false, retransmitTimer := false);
      if c.closed then quiet.(emitted := c.emitted + [Destroyed, TlsClosed])
      else if c.listening then quiet.(listening := false, emitted := c.emitted + [Destroyed, SocketClosed, TlsClosed])
      else quiet.(emitted := c.emitted + [TlsClosed])
  }

  /** What a close event on the socket leads to. */
  function AfterSocketClose(c: Conn): Conn {
    if !c.listening then c
    else if c.closed then c.(listening := false, emitted := c.emitted + [Destroyed, SocketClosed])
    else if c.tlsOpen then
      Conn(true, false, false, false, false, c.emitted + [Destroyed, TlsClosed, SocketClosed])
    else c.(closed := true, listening := false, emitted := c.emitted + [SocketClosed])
  }

  function AfterSocketError(c: Conn): Conn {
    if !c.listening then c else var c' := AfterSocketClose(c); c'.(emitted := c'.emitted + [SocketError])
  }

  function AfterDestroy(c: Conn): Conn {
    AfterTlsClose(c.(disconnectTimer := false, retransmitTimer := false))
  }

  class TLSClient {
    var closed: bool
    var tlsOpen: bool
    var listening: bool
    var disconnectTimer: bool
    var retransmitTimer: bool
    var emitted: seq<Emitted>

    function Abstract(): Conn
      reads this
    {
      Conn(closed, tlsOpen, listening, disconnectTimer, retransmitTimer, emitted)
    }

    /** A connection whose TLS handshake has just completed. */
    constructor Established(keepAlive: bool)
      ensures Abstract() == Conn(false, true, true, keepAlive, false, [])
    {
      closed, tlsOpen, listening := false, true, true;
      disconnectTimer, retransmitTimer, emitted := keepAlive, false, [];
    }

    /** `socket.emit('close')`: nothing happens once the handlers have been removed. */
    method EmitClose()
      modifies this
      ensures Abstract() == AfterSocketClose(old(Abstract()))
      decreases if closed then 0 else 1, if tlsOpen then 1 else 0, 1
    {
      if listening {
        OnSocketClose();
      }
    }

    method OnSocketClose()
      requires listening
      modifies this
      ensures Abstract() == AfterSocketClose(old(Abstract()))
      decreases if closed then 0 else 1, if tlsOpen then 1 else 0, 0
    {
      if !closed {
        closed := true;
        TlsClose();
      } else {
        emitted := emitted + [Destroyed];
      }
      listening := false;
      emitted := emitted + [SocketClosed];
    }

    /** The library's close: it calls the closed callback once per open connection. */
    method TlsClose()
      modifies this
      ensures Abstract() == AfterTlsClose(old(Abstract()))
      decreases if closed then 0 else 1, if tlsOpen then 1 else 0, 2
    {
      if tlsOpen {
        tlsOpen := false;
        OnTlsClosed();
      }
    }

    method OnTlsClosed()
      requires !tlsOpen
      modifies this
      ensures Abstract() == AfterTlsClose(old(Abstract()).(tlsOpen := true))
      decreases if closed then 0 else 1, if tlsOpen then 1 else 0, 2
    {
      disconnectTimer, retransmitTimer := false, false;
      if !closed {
        closed := true;
        EmitClose();
      } else {
        emitted := emitted + [Destroyed];
      }
      emitted := emitted + [TlsClosed];
    }

    method OnSocketError()
      modifies this
      ensures Abstract() == AfterSocketError(old(Abstract()))
    {
      if listening {
        EmitClose();
        emitted := emitted + [SocketError];
      }
    }

    method Destroy()
      modifies this
      ensures Abstract() == AfterDestroy(old(Abstract()))
    {
      disconnectTimer, retransmitTimer := false, false;
      TlsClose();
    }
  }

  /** A TLS side that closes, in every state: what is emitted depends on whether the socket was closed before it. */
  lemma TlsCloseLaw(c: Conn)
    ensures AfterTlsClose(c) ==
            if !c.tlsOpen then c
            else Conn(true, false, c.listening && c.closed, false, false,
                      c.emitted + if c.closed then [Destroyed, TlsClosed]
                                  else if c.listening then [Destroyed, SocketClosed, TlsClosed] else [TlsClosed])
  {
  }

  /** A socket that closes, in every state: it takes an open TLS side with it. */
  lemma SocketCloseLaw(c: Conn)
    ensures AfterSocketClose(c) ==
            if !c.listening then c
            else if c.closed || !c.tlsOpen then
              Conn(true, c.tlsOpen, false, c.disconnectTimer, c.retransmitTimer,
                   c.emitted + if c.closed then [Destroyed, SocketClosed] else [SocketClosed])
            else Conn(true, false, false, false, false, c.emitted + [Destroyed, TlsClosed, SocketClosed])
  {
  }

  // ---- confluence ----

  datatype Trigger = SocketCloses | SocketFails | TlsCloses | Destroys

  function After(c: Conn, trigger: Trigger): Conn {
    match trigger
    case SocketCloses => AfterSocketClose(c)
    case SocketFails => AfterSocketError(c)
    case TlsCloses => AfterTlsClose(c)
    case Destroys => AfterDestroy(c)
  }

  function AfterAll(c: Conn, triggers: seq<Trigger>): Conn {
    if triggers == [] then c else After(AfterAll(c, triggers[..|triggers| - 1]), triggers[|triggers| - 1])
  }

  predicate IsEstablished(c: Conn) {
    !c.closed && c.tlsOpen && c.listening && c.emitted == []
  }

  /**
   * Whatever closes first and whatever follows, in any number and order: the first trigger tears the
   * connection down completely, with its own order of events, and the rest add nothing.
   */
  lemma {:induction false} TeardownIsConfluent(c: Conn, triggers: seq<Trigger>)
    requires IsEstablished(c) && triggers != []
    ensures AfterAll(c, triggers) ==
            Conn(true, false, false, false, false,
                 match triggers[0]
                 case SocketCloses => [Destroyed, TlsClosed, SocketClosed]
                 case SocketFails => [Destroyed, TlsClosed, SocketClosed, SocketError]
                 case TlsCloses => [Destroyed, SocketClosed, TlsClosed]
                 case Destroys => [Destroyed, SocketClosed, TlsClosed])
  {
    var init := triggers[..|triggers| - 1];
    if init == [] {
      assert AfterAll(c, init) == c;
    } else {
      TeardownIsConfluent(c, init);
    }
  }

  function Count(events: seq<Emitted>, event: Emitted): nat {
    if events == [] then 0 else (if events[0] == event then 1 else 0) + Count(events[1..], event)
  }

  /** Each of the three closing events is emitted exactly once, and the promise of `destroy` is kept. */
  lemma EachEventOnce(c: Conn, triggers: seq<Trigger>, event: Emitted)
    requires IsEstablished(c) && triggers != [] && event != SocketError
    ensures Count(AfterAll(c, triggers).emitted, event) == 1
  {
    TeardownIsConfluent(c, triggers);
    var events := AfterAll(c, triggers).emitted;
    CountThree(events[0], events[1], events[2], events[3..], event);
    assert events == [events[0], events[1], events[2]] + events[3..];
    assert events[3..] == [] || (events[3..] == [SocketError] && events[3..][1..] == []);
  }

  lemma CountThree(x: Emitted, y: Emitted, z: Emitted, rest: seq<Emitted>, event: Emitted)
    ensures Count([x, y, z] + rest, event) ==
            (if x == event then 1 else 0) + (if y == event then 1 else 0) + (if z == event then 1 else 0)
            + Count(rest, event)
  {
    var three, two, one := [x, y, z] + rest, [y, z] + rest, [z] + rest;
    assert three[1..] == two && two[1..] == one && one[1..] == rest;
    assert Count(one, event) == (if z == event then 1 else 0) + Count(rest, event);
    assert Count(two, event) == (if y == event then 1 else 0) + Count(one, event);
  }
}
