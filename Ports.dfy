/** The bookkeeping of one connection actor (a "port"): whether a socket is
    live, the admission status shown for it, the close/kill requests and the
    reconnect delay, and the frames it hands to the socket. Socket calls,
    threads and signals are not modelled; their outcomes arrive as method
    calls. */
module Ports {
  import opened Wire

  /** Admission status of a link. */
  datatype Status = NotConnected | Opened | Closed

  /** Who initiates the TCP connection: listen-then-accept or connect. */
  datatype Role = Server | Outbound

  /** The observable state of a port, as a value. `wire` lists the frames
      handed to the socket's send call, oldest first. */
  datatype LinkView = LinkView(connected: bool, status: Status, closeRequested: bool,
                               killRequested: bool, reconnectDelay: nat, wire: seq<seq<byte>>)

  /** A freshly constructed port: no socket, a reconnect delay of one second. */
  function NewLink(): LinkView
  {
    LinkView(false, NotConnected, false, false, 1, [])
  }

  /** The invariant the status bookkeeping keeps: a status other than
      NOT_CONNECTED is shown exactly while a socket is live. */
  predicate LinkOk(l: LinkView)
  {
    l.connected <==> l.status != NotConnected
  }

  /** Whether sendMessage hands a frame to the socket. */
  predicate Transmits(l: LinkView, force: bool)
  {
    l.connected && (force || l.status == Opened)
  }

  /** sendMessage: dropped when not connected, and an unforced frame also
      when the link is not OPENED. */
  function Sent(l: LinkView, msg: seq<byte>, force: bool): LinkView
  {
    if Transmits(l, force) then l.(wire := l.wire + [msg]) else l
  }

  /** markOpened: only a connected port changes status. */
  function MarkedOpened(l: LinkView): LinkView
  {
    if l.connected then l.(status := Opened) else l
  }

  /** markClosed: only a connected port changes status. */
  function MarkedClosed(l: LinkView): LinkView
  {
    if l.connected then l.(status := Closed) else l
  }

  /** The end of a successful accept/connect: the socket is live and the link
      is CLOSED until a higher layer opens it. */
  function Established(l: LinkView): LinkView
  {
    MarkedClosed(l.(connected := true))
  }

  /** cleanup: the socket is gone. */
  function CleanedUp(l: LinkView): LinkView
  {
    l.(connected := false, status := NotConnected)
  }

  /** The send rule, both ways: a frame goes out exactly when the port is
      connected and either forced or OPENED, and nothing else changes. */
  lemma SentSpec(l: LinkView, msg: seq<byte>, force: bool)
    ensures |Sent(l, msg, force).wire| == |l.wire| + 1 <==> l.connected && (force || l.status == Opened)
    ensures Sent(l, msg, force).(wire := l.wire) == l
    ensures !(l.connected && (force || l.status == Opened)) ==> Sent(l, msg, force) == l
    ensures l.connected && l.status == Opened ==> Sent(l, msg, force).wire == l.wire + [msg]
    ensures !l.connected ==> Sent(l, msg, force) == l
    ensures l.connected && force ==> Sent(l, msg, force).wire == l.wire + [msg]
  {
  }

  /** Every status operation keeps LinkOk. */
  lemma LinkOkPreserved(l: LinkView, msg: seq<byte>, force: bool)
    requires LinkOk(l)
    ensures LinkOk(Sent(l, msg, force)) && LinkOk(MarkedOpened(l)) && LinkOk(MarkedClosed(l))
    ensures LinkOk(Established(l)) && LinkOk(CleanedUp(l))
  {
  }

  /** After a successful connect the link is live and CLOSED, whatever it
      was before; after cleanup it is NOT_CONNECTED. */
  lemma EstablishedThenCleanedUp(l: LinkView)
    ensures Established(l).connected && Established(l).status == Closed
    ensures !CleanedUp(l).connected && CleanedUp(l).status == NotConnected
    ensures MarkedOpened(Established(l)).status == Opened
  {
  }

  class Port {
    const id: nat
    const role: Role
    var connected: bool
    var status: Status
    var closeRequested: bool
    var killRequested: bool
    var reconnectDelay: nat
    var wire: seq<seq<byte>>

    ghost function View(): LinkView
      reads this
    {
      LinkView(connected, status, closeRequested, killRequested, reconnectDelay, wire)
    }

    constructor (id: nat, role: Role)
      ensures this.id == id && this.role == role
      ensures View() == NewLink()
    {
      this.id := id;
      this.role := role;
      connected := false;
      status := NotConnected;
      closeRequested := false;
      killRequested := false;
      reconnectDelay := 1;
      wire := [];
    }

    /** sendMessage: the send rule decides whether the frame reaches the socket. */
    method SendMessage(msg: seq<byte>, force: bool)
      modifies this
      ensures View() == Sent(old(View()), msg, force)
    {
      if !connected {
        return;
      }
      if !force && status != Opened {
        return;
      }
      wire := wire + [msg];
    }

    /** What happens after the socket's send call returned `written` for a
        frame of `length` bytes: an error or a short write is reported and
        raises the close flag, so the actor reconnects; it is not fatal. */
    method SendOutcome(written: int, length: nat)
      modifies this
      ensures closeRequested == (old(closeRequested) || written != length)
      ensures View() == old(View()).(closeRequested := closeRequested)
    {
      if written == -1 {
        closeRequested := true;
      }
      if written != length {
        closeRequested := true;
      }
    }

    method MarkOpened()
      modifies this
      ensures View() == MarkedOpened(old(View()))
    {
      if connected {
        status := Opened;
      }
    }

    method MarkClosed()
      modifies this
      ensures View() == MarkedClosed(old(View()))
    {
      if connected {
        status := Closed;
      }
    }

    /** The start of each connection attempt clears the close flag. */
    method BeginAttempt()
      modifies this
      ensures View() == old(View()).(closeRequested := false)
    {
      closeRequested := false;
    }

    /** The end of a connection attempt: unless a close or kill was requested
        meanwhile, the socket counts as connected and the link is CLOSED;
        `up` says whether the owner's connected() callback runs. */
    method ConnectSucceeded() returns (up: bool)
      modifies this
      ensures up == (!old(closeRequested) && !old(killRequested))
      ensures View() == if up then Established(old(View())) else old(View())
    {
      up := !closeRequested && !killRequested;
      if up {
        connected := true;
        MarkClosed();
      }
    }

    /** cleanup: the socket is released; the owner's disconnected() callback
        runs after this. */
    method Cleanup()
      modifies this
      ensures View() == CleanedUp(old(View()))
    {
      connected := false;
      status := NotConnected;
    }

    /** close(seconds): a temporary shutdown with the given reconnect delay. */
    method RequestClose(seconds: nat)
      modifies this
      ensures View() == old(View()).(closeRequested := true, reconnectDelay := seconds)
    {
      closeRequested := true;
      reconnectDelay := seconds;
    }

    /** kill(): a permanent shutdown. */
    method RequestKill()
      modifies this
      ensures View() == old(View()).(killRequested := true)
    {
      killRequested := true;
    }

    /** After the post-close wait the delay goes back to one second. */
    method FinishCloseWait()
      modifies this
      ensures View() == old(View()).(reconnectDelay := 1)
    {
      reconnectDelay := 1;
    }
  }
}
