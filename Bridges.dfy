/** The bridge as objects: a Bridge owns a port table of BridgePorts, each of
    which owns its connection (a Ports.Port), its receive buffer, and the
    best root heard on it. Every handler is proved to move the bridge's
    abstract state, Abs(), exactly as the function of the same name in module
    Election does, so the properties proved there hold of these methods. A
    BridgePort's handlers call back into its bridge for every decision, so
    they are methods of Bridge taking the port's id. */
module Bridges {
  import opened Wire
  import opened Framing
  import opened Ports
  import opened Nodes
  import opened Election

  /** Bytes received on a port and not yet consumed as frames. */
  class ByteBuffer {
    /** The id of the port whose buffer this is. */
    ghost const owner: nat
    var bytes: seq<byte>

    constructor (owner: nat)
      ensures this.owner == owner && bytes == []
    {
      this.owner := owner;
      bytes := [];
    }

    method Set(b: seq<byte>)
      modifies this
      ensures bytes == b
    {
      bytes := b;
    }
  }

  class BridgePort {
    const link: Port
    const kind: PortKind
    const buffer: ByteBuffer
    var rootID: u32
    var rootPath: u32

    ghost function View(): PortView
      reads this`rootID, this`rootPath, link
    {
      PortView(kind, link.View(), rootID, rootPath)
    }

    /** A new port remembers the pair (0, 0); its kind never changes. */
    constructor (key: nat, role: Role, kind: PortKind)
      ensures fresh(link) && fresh(buffer) && link.id == key && link.role == role && this.kind == kind
      ensures View() == NewPort(kind) && buffer.bytes == [] && buffer.owner == key
    {
      link := new Port(key, role);
      buffer := new ByteBuffer(key);
      this.kind := kind;
      rootID := 0;
      rootPath := 0;
    }

    method SetRootID(id: u32)
      modifies this
      ensures View() == old(View()).(rootID := id)
    {
      rootID := id;
    }

    method SetRootPath(path: u32)
      modifies this
      ensures View() == old(View()).(rootPath := path)
    {
      rootPath := path;
    }

    /** The body of initialize's loop for this port. */
    method Reinitialize(wasWorking: bool, id: u32, msg: seq<byte>)
      modifies this, link
      ensures View() == InitializedPort(old(View()), wasWorking, id, msg)
    {
      if kind == ClientFacing {
        link.MarkOpened();
      } else {
        if wasWorking {
          SetRootID(id);
          SetRootPath(0);
        }
        link.MarkClosed();
        link.SendMessage(msg, true);
      }
    }

    /** The test and update at the head of bridgeRootMsg: only a strictly
        better pair replaces the remembered one. */
    method Adopt(id: u32, path: u32) returns (better: bool)
      modifies this
      ensures better == Better(id, path, old(rootID), old(rootPath))
      ensures View() == if better then old(View()).(rootID := id, rootPath := path) else old(View())
    {
      better := id < rootID || (id == rootID && path < rootPath);
      if better {
        rootPath := path;
        rootID := id;
      }
    }
  }

  class Bridge {
    const node: Node<BridgePort>
    var rootID: u32
    var rootPath: u32
    var state: BridgeState
    /** Whether the election timer is running: set by initialize, cleared
        when the timeout fires. */
    var armed: bool

    ghost function Ports(): set<BridgePort>
      reads node
    {
      node.ports.Values
    }

    /** Every port is filed under its connection's id, and its receive
        buffer belongs to that id (so no port object, no connection and no
        buffer is filed twice). */
    ghost predicate Valid()
      reads node
    {
      forall k :: k in node.ports ==> node.ports[k].link.id == k && node.ports[k].buffer.owner == k
    }

    /** Receive buffers are per port, as m_buffer is a member of each port. */
    lemma BuffersArePerPort()
      requires Valid()
      ensures forall k, k' :: k in node.ports && k' in node.ports && k != k' ==>
        node.ports[k].buffer != node.ports[k'].buffer && node.ports[k].link != node.ports[k'].link
    {
    }

    ghost function Links(): set<Port>
      reads node
    {
      set p | p in node.ports.Values :: p.link
    }

    /** What the bridge knows about each of its ports. */
    ghost function PortViews(): map<nat, PortView>
      reads node, Ports()`rootID, Ports()`rootPath, Links()
    {
      map k | k in node.ports :: node.ports[k].View()
    }

    /** The bridge's protocol state as a value; receive buffers are not part of it. */
    ghost function Abs(): Engine
      reads this, node, Ports()`rootID, Ports()`rootPath, Links()
    {
      Engine(node.id, rootID, rootPath, state, armed, PortViews())
    }

    /** A new bridge believes in itself as root, with path 0, and is WORKING. */
    constructor (id: u32)
      ensures fresh(node) && Valid() && Abs() == NewEngine(id)
    {
      node := new Node(id);
      rootID := id;
      rootPath := 0;
      state := Working;
      armed := false;
    }

    /** The cport/bport/cconn/bconn commands: a new port of the given kind
        is added under its id, unless the id is taken. */
    method CreatePort(key: nat, role: Role, kind: PortKind) returns (ok: bool)
      requires Valid()
      modifies node
      ensures Valid() && ok == (key !in old(node.ports))
      ensures Abs() == AddedPort(old(Abs()), key, kind)
      ensures ok ==> key in node.ports && node.ports[key].buffer.bytes == []
    {
      ghost var views := PortViews();
      var p := new BridgePort(key, role, kind);
      ok := node.AddPort(key, p);
      if ok {
        assert PortViews() == views[key := NewPort(kind)];
      }
    }

    method RemovePort(key: nat) returns (ok: bool)
      requires Valid()
      modifies node
      ensures Valid() && ok == (key in old(node.ports))
      ensures Abs() == RemovedPort(old(Abs()), key)
    {
      ok := node.RemovePort(key);
    }

    /** Writes the bridge's own fields; the ports are not touched. */
    method SetBelief(id: u32, path: u32, st: BridgeState, arm: bool)
      modifies this
      ensures rootID == id && rootPath == path && state == st && armed == arm
      ensures PortViews() == old(PortViews())
    {
      rootID, rootPath, state, armed := id, path, st, arm;
    }

    // -------------------------------------------------------------- initialize

    /** initialize: resets the belief when WORKING, then visits the ports. */
    method Initialize()
      requires Valid()
      modifies this, Links(), Ports()
      ensures Abs() == Initialized(old(Abs()))
    {
      var wasWorking := state == Working;
      var newID := if wasWorking then node.id else rootID;
      var newPath := if wasWorking then 0 else rootPath;
      ReinitializePorts(wasWorking, RootAdvert(newID, Inc(newPath)));
      SetBelief(newID, newPath, Linking, true);
    }

    /** The loop of initialize, in ascending id order. */
    method ReinitializePorts(wasWorking: bool, msg: seq<byte>)
      requires Valid()
      modifies Links(), Ports()
      ensures PortViews() == InitializedPorts(old(PortViews()), wasWorking, node.id, msg)
    {
      ghost var views := PortViews();
      var keys := node.ports.Keys;
      InitializedPortsEnds(views, wasWorking, node.id, msg);
      while keys != {}
        invariant keys <= node.ports.Keys == views.Keys
        invariant PortViews() == InitializedPortsExcept(views, keys, wasWorking, node.id, msg)
        decreases keys
      {
        var k := Least(keys);
        InitializedPortsStep(views, keys, wasWorking, node.id, msg, k);
        ReinitializeAt(k, wasWorking, msg);
        keys := keys - {k};
      }
    }

    method ReinitializeAt(k: nat, wasWorking: bool, msg: seq<byte>)
      requires Valid() && k in node.ports
      modifies node.ports[k], node.ports[k].link
      ensures PortViews() == old(PortViews())[k := InitializedPort(old(PortViews())[k], wasWorking, node.id, msg)]
    {
      node.ports[k].Reinitialize(wasWorking, node.id, msg);
    }

    // -------------------------------------------------------- sendToOtherPorts

    /** sendToOtherPorts, in ascending id order; the sender is named by its id. */
    method SendToOtherPorts(sender: nat, msg: seq<byte>, force: bool, clientPorts: bool)
      requires Valid()
      modifies Links()
      ensures PortViews() == FloodedPorts(old(PortViews()), sender, msg, force, clientPorts)
      ensures Abs() == SentToOthers(old(Abs()), sender, msg, force, clientPorts)
    {
      ghost var views := PortViews();
      var keys := node.ports.Keys;
      FloodedPortsEnds(views, sender, msg, force, clientPorts);
      while keys != {}
        invariant keys <= node.ports.Keys == views.Keys
        invariant PortViews() == FloodedPortsExcept(views, keys, sender, msg, force, clientPorts)
        decreases keys
      {
        var k := Least(keys);
        FloodedPortsStep(views, keys, sender, msg, force, clientPorts, k);
        SendAt(k, sender, msg, force, clientPorts);
        keys := keys - {k};
      }
    }

    /** The body of sendToOtherPorts' loop for port k. */
    method SendAt(k: nat, sender: nat, msg: seq<byte>, force: bool, clientPorts: bool)
      requires Valid() && k in node.ports
      modifies node.ports[k].link
      ensures PortViews() == old(PortViews())[k := FloodedPort(k, old(PortViews())[k], sender, msg, force, clientPorts)]
    {
      var port := node.ports[k];
      if port.kind == ClientFacing && !clientPorts {
        return;
      }
      if k != sender {
        port.link.SendMessage(msg, force);
      }
    }

    // ------------------------------------------------------------- root messages

    /** Bridge::rootMsg. */
    method RootMsg(sender: nat, id: u32, path: u32)
      requires Valid()
      modifies this, Links()
      ensures Abs() == Election.RootMsg(old(Abs()), sender, id, path)
    {
      if id < rootID || (id == rootID && path < rootPath) {
        SetBelief(id, path, state, armed);
      }
      SendToOtherPorts(sender, RootAdvert(id, Inc(path)), true, false);
    }

    /** BridgePort::bridgeRootMsg on the port with id key. */
    method BridgeRootMsg(key: nat, id: u32, path: u32)
      requires Valid() && key in node.ports
      modifies this, Links(), Ports()
      ensures Abs() == Election.BridgeRootMsg(old(Abs()), key, id, path)
    {
      var better := AdoptAt(key, id, path);
      if better {
        var port := node.ports[key];
        RootMsg(key, port.rootID, port.rootPath);
      }
    }

    method AdoptAt(k: nat, id: u32, path: u32) returns (better: bool)
      requires Valid() && k in node.ports
      modifies node.ports[k]
      ensures better == Better(id, path, old(PortViews())[k].rootID, old(PortViews())[k].rootPath)
      ensures PortViews() == if better then old(PortViews())[k := old(PortViews())[k].(rootID := id, rootPath := path)] else old(PortViews())
      ensures better ==> node.ports[k].rootID == id && node.ports[k].rootPath == path
    {
      better := node.ports[k].Adopt(id, path);
    }

    // ---------------------------------------------------------- frame handlers

    /** BridgePort::bridgeMessageReceived on the port with id key. */
    method BridgeMessageReceived(key: nat, frame: seq<byte>)
      requires Valid() && key in node.ports && |frame| == FrameSize
      modifies this, Links(), Ports()
      ensures Abs() == BridgeFrame(old(Abs()), key, frame)
    {
      var port := node.ports[key];
      if port.kind == ClientFacing {
        return;
      }
      var (id, path) := RootOf(frame);
      if frame[1] == SubtypeOpen {
        OpenAt(key);
        return;
      }
      Advertisement(key, id, path);
    }

    /** The advertisement branch of bridgeMessageReceived. */
    method Advertisement(key: nat, id: u32, path: u32)
      requires Valid() && key in node.ports
      modifies this, Links(), Ports()
      ensures Abs() == Advertised(old(Abs()), key, id, path)
    {
      if state == Working {
        Initialize();
        BridgeRootMsg(key, id, path);
      }
      if state == Linking {
        BridgeRootMsg(key, id, path);
      }
    }

    method OpenAt(k: nat)
      requires Valid() && k in node.ports
      modifies node.ports[k].link
      ensures PortViews() == old(PortViews())[k := old(PortViews())[k].(link := MarkedOpened(old(PortViews())[k].link))]
    {
      node.ports[k].link.MarkOpened();
    }

    /** BridgePort::clientMessageReceived on the port with id key. */
    method ClientMessageReceived(key: nat, frame: seq<byte>)
      requires Valid() && key in node.ports
      modifies Links()
      ensures Abs() == ClientFrame(old(Abs()), key, frame)
    {
      if node.ports[key].link.status == Opened && state == Working {
        SendToOtherPorts(key, frame, false, true);
      }
    }

    /** The choice of handler inside gotMsg. */
    method DispatchFrame(key: nat, frame: seq<byte>)
      requires Valid() && key in node.ports && |frame| == FrameSize
      modifies this, Links(), Ports()
      ensures Abs() == Dispatch(old(Abs()), key, frame)
    {
      if frame[0] == TagBridge {
        BridgeMessageReceived(key, frame);
      } else {
        ClientMessageReceived(key, frame);
      }
    }

    /** BridgePort::gotMsg on the port with id key: the chunk is appended to
        the buffer, and every frame the extraction finds is handled in order. */
    method GotMsg(key: nat, msg: seq<byte>)
      requires Valid() && key in node.ports
      modifies this, Links(), Ports(), node.ports[key].buffer
      ensures var x := Split(old(node.ports[key].buffer.bytes) + msg, BridgeTags);
        Abs() == Handle(old(Abs()), key, x.frames) && node.ports[key].buffer.bytes == x.rest
    {
      var buffer := node.ports[key].buffer;
      buffer.Set(buffer.bytes + msg);
      ReassemblingStart(Abs(), key, buffer.bytes);
      Drain(key, Abs(), buffer.bytes);
    }

    /** The outer loop of gotMsg: the scan is repeated until it finds no
        frame, starting from engine e0 and the whole buffer. */
    method Drain(key: nat, ghost e0: Engine, ghost whole: seq<byte>)
      requires Valid() && key in node.ports
      requires Reassembling(e0, key, whole, [], Abs(), node.ports[key].buffer.bytes)
      modifies this, Links(), Ports(), node.ports[key].buffer
      ensures Abs() == Handle(e0, key, Split(whole, BridgeTags).frames)
      ensures node.ports[key].buffer.bytes == Split(whole, BridgeTags).rest
    {
      ghost var done: seq<seq<byte>> := [];
      var finished := false;
      while !finished
        invariant Reassembling(e0, key, whole, done, Abs(), node.ports[key].buffer.bytes)
        invariant finished ==> NoFrame(node.ports[key].buffer.bytes, BridgeTags)
        decreases |node.ports[key].buffer.bytes| + if finished then 0 else 1
      {
        var found;
        found, done := Pass(key, e0, whole, done);
        finished := !found;
      }
      ReassemblingDone(e0, key, whole, done, Abs(), node.ports[key].buffer.bytes);
    }

    /** One iteration of gotMsg's outer loop, together with the frames taken
        so far: the invariant is kept, and the loop either ends with no
        frame left or goes on with a shorter buffer. */
    method Pass(key: nat, ghost e0: Engine, ghost whole: seq<byte>, ghost done: seq<seq<byte>>)
      returns (found: bool, ghost done': seq<seq<byte>>)
      requires Valid() && key in node.ports
      requires Reassembling(e0, key, whole, done, Abs(), node.ports[key].buffer.bytes)
      modifies this, Links(), Ports(), node.ports[key].buffer
      ensures Reassembling(e0, key, whole, done', Abs(), node.ports[key].buffer.bytes)
      ensures found ==> |node.ports[key].buffer.bytes| + FrameSize <= |old(node.ports[key].buffer.bytes)|
      ensures !found ==> NoFrame(node.ports[key].buffer.bytes, BridgeTags)
      ensures !found ==> node.ports[key].buffer.bytes == old(node.ports[key].buffer.bytes)
    {
      var buffer := node.ports[key].buffer;
      ghost var before := buffer.bytes;
      ghost var e := Abs();
      found := ExtractFrame(key, buffer);
      ReassemblingStep(e0, key, whole, done, e, before, Abs(), buffer.bytes);
      done' := Taken(done, before, BridgeTags);
    }

    /** One pass of gotMsg's scan: the first frame in the buffer, if any, is
        dispatched and cut out together with everything before it. */
    method ExtractFrame(key: nat, buffer: ByteBuffer) returns (found: bool)
      requires Valid() && key in node.ports && buffer == node.ports[key].buffer
      modifies this, Links(), Ports(), buffer
      ensures found == NextFrame(old(buffer.bytes), BridgeTags).Some?
      ensures ScanPass(key, old(Abs()), old(buffer.bytes), Abs(), buffer.bytes)
    {
      var at := FindFrame(buffer.bytes, BridgeTags);
      if at.None? {
        return false;
      }
      var i := at.value;
      DispatchFrame(key, buffer.bytes[i..i + FrameSize]);
      buffer.Set(buffer.bytes[i + FrameSize..]);
      return true;
    }

    // ---------------------------------------------------- connect and disconnect

    /** Bridge::disconnected for the port with id key. */
    method Disconnected(key: nat)
      requires Valid() && key in node.ports
      modifies this, Links(), Ports()
      ensures Abs() == Election.Disconnected(old(Abs()), key)
    {
      var port := node.ports[key];
      if port.rootID == rootID && port.rootPath == rootPath {
        Initialize();
      }
    }

    /** The end of a connection attempt on the port with id key, then
        BridgePort::connected if the attempt counts. */
    method PortConnected(key: nat)
      requires Valid() && key in node.ports
      modifies this, Links(), Ports()
      ensures Abs() == Election.PortConnected(old(Abs()), key)
    {
      var up := ConnectAt(key);
      if up {
        if node.ports[key].kind == ClientFacing {
          OpenAt(key);
        } else {
          Initialize();
        }
      }
    }

    method ConnectAt(k: nat) returns (up: bool)
      requires Valid() && k in node.ports
      modifies node.ports[k].link
      ensures var l := old(PortViews())[k].link;
        && up == (!l.closeRequested && !l.killRequested)
        && PortViews() == if up then old(PortViews())[k := old(PortViews())[k].(link := Established(l))] else old(PortViews())
    {
      up := node.ports[k].link.ConnectSucceeded();
    }

    /** Port cleanup on the port with id key, then BridgePort::disconnected. */
    method PortDisconnected(key: nat)
      requires Valid() && key in node.ports
      modifies this, Links(), Ports()
      ensures Abs() == Election.PortDisconnected(old(Abs()), key)
    {
      CleanupAt(key);
      if node.ports[key].kind == ClientFacing {
        return;
      }
      Disconnected(key);
    }

    method CleanupAt(k: nat)
      requires Valid() && k in node.ports
      modifies node.ports[k].link
      ensures PortViews() == old(PortViews())[k := old(PortViews())[k].(link := CleanedUp(old(PortViews())[k].link))]
    {
      node.ports[k].link.Cleanup();
    }

    // ----------------------------------------------------------------- timeout

    /** Bridge::timeout, run by the timer thread after it cleared its timer. */
    method Timeout()
      requires Valid()
      modifies this, Links()
      ensures Abs() == TimedOut(old(Abs()))
    {
      ghost var e := Abs();
      OpenForeignPorts();
      OpenedForeignKeepsChoice(e);
      OpenRootPort();
      SetBelief(rootID, rootPath, Working, false);
    }

    /** The first loop of timeout. */
    method OpenForeignPorts()
      requires Valid()
      modifies Links()
      ensures PortViews() == OpenedForeignPorts(old(PortViews()), rootID)
    {
      ghost var views := PortViews();
      var keys := node.ports.Keys;
      OpenedForeignPortsEnds(views, rootID);
      while keys != {}
        invariant keys <= node.ports.Keys == views.Keys
        invariant PortViews() == OpenedForeignPortsExcept(views, keys, rootID)
        decreases keys
      {
        var k := Least(keys);
        OpenedForeignPortsStep(views, keys, rootID, k);
        OpenForeignAt(k);
        keys := keys - {k};
      }
    }

    method OpenForeignAt(k: nat)
      requires Valid() && k in node.ports
      modifies node.ports[k].link
      ensures PortViews() == old(PortViews())[k := OpenedIfForeign(old(PortViews())[k], rootID)]
    {
      var port := node.ports[k];
      if port.kind == ClientFacing {
        return;
      }
      if port.rootID != rootID {
        port.link.MarkOpened();
      }
    }

    /** The second loop of timeout: the first root port in ascending id order
        is opened and sent an open request, and the loop stops there. */
    method OpenRootPort()
      requires Valid()
      modifies Links()
      ensures Abs() == match ChosenRootPort(old(Abs()))
                       case None => old(Abs())
                       case Some(k) => WithLink(old(Abs()), k, Sent(MarkedOpened(old(Abs()).ports[k].link), OpenRequest(), true))
    {
      ghost var e := Abs();
      var keys := node.ports.Keys;
      while keys != {}
        invariant keys <= node.ports.Keys
        invariant Abs() == e
        invariant e.rootID != e.id ==> RootPorts(e) <= keys
        decreases keys
      {
        var k := Least(keys);
        var port := node.ports[k];
        if port.kind != ClientFacing && port.rootID == rootID && port.rootPath == rootPath && rootID != node.id {
          assert k in RootPorts(e);
          LeastUnique(RootPorts(e), k);
          OpenRootAt(k);
          return;
        }
        keys := keys - {k};
      }
    }

    method OpenRootAt(k: nat)
      requires Valid() && k in node.ports
      modifies node.ports[k].link
      ensures PortViews() == old(PortViews())[k := old(PortViews())[k].(link := Sent(MarkedOpened(old(PortViews())[k].link), OpenRequest(), true))]
    {
      var port := node.ports[k];
      port.link.MarkOpened();
      port.link.SendMessage(OpenRequest(), true);
    }
  }
}
