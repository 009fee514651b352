/** The bridge's root election as functions on a value. An Engine is what a
    bridge knows: its own id, the root it believes in (id and path length),
    LINKING or WORKING, whether the election timer is armed, and for every
    port (by id) its kind, its link bookkeeping and the best root heard on
    it. Each protocol handler is a function from the engine before to the
    engine after; the imperative classes in module Bridges are proved to
    compute exactly these functions, and the lemmas below state what the
    election guarantees. */
module Election {
  import opened Wire
  import opened Framing
  import opened Ports

  datatype BridgeState = Linking | Working

  /** A bridge port faces either a client or another bridge; only
      bridge-facing ports take part in the election. */
  datatype PortKind = ClientFacing | BridgeFacing

  datatype PortView = PortView(kind: PortKind, link: LinkView, rootID: u32, rootPath: u32)

  datatype Engine = Engine(id: u32, rootID: u32, rootPath: u32, state: BridgeState,
                           armed: bool, ports: map<nat, PortView>)

  /** Root comparison: (id1, path1) is strictly better than (id2, path2):
      lower id wins, then lower path, both unsigned. */
  predicate Better(id1: u32, path1: u32, id2: u32, path2: u32)
  {
    id1 < id2 || (id1 == id2 && path1 < path2)
  }

  /** Better is a strict total order on pairs. */
  lemma BetterIsStrictTotalOrder(a: (u32, u32), b: (u32, u32), c: (u32, u32))
    ensures !Better(a.0, a.1, a.0, a.1)
    ensures Better(a.0, a.1, b.0, b.1) ==> !Better(b.0, b.1, a.0, a.1)
    ensures Better(a.0, a.1, b.0, b.1) && Better(b.0, b.1, c.0, c.1) ==> Better(a.0, a.1, c.0, c.1)
    ensures a == b || Better(a.0, a.1, b.0, b.1) || Better(b.0, b.1, a.0, a.1)
  {
  }

  /** Operations on the engine never add or drop ports, change a port's
      kind or the bridge's id. */
  ghost predicate SameShape(e: Engine, r: Engine)
  {
    && r.id == e.id
    && r.ports.Keys == e.ports.Keys
    && forall k :: k in e.ports ==> r.ports[k].kind == e.ports[k].kind
  }

  /** Nor do they change any port's remembered root. */
  ghost predicate SameRoots(e: Engine, r: Engine)
    requires r.ports.Keys == e.ports.Keys
  {
    forall k :: k in e.ports ==> r.ports[k].rootID == e.ports[k].rootID && r.ports[k].rootPath == e.ports[k].rootPath
  }

  /** A new bridge believes in itself as root with path 0 and is WORKING. */
  ghost function NewEngine(id: u32): Engine
  {
    Engine(id, id, 0, Working, false, map[])
  }

  /** A new bridge port remembers the pair (0, 0). */
  ghost function NewPort(kind: PortKind): PortView
  {
    PortView(kind, NewLink(), 0, 0)
  }

  ghost function WithPort(e: Engine, key: nat, p: PortView): Engine
  {
    e.(ports := e.ports[key := p])
  }

  ghost function WithLink(e: Engine, key: nat, l: LinkView): Engine
    requires key in e.ports
  {
    WithPort(e, key, e.ports[key].(link := l))
  }

  /** addPort on a bridge: a duplicate id leaves everything as it was. */
  ghost function AddedPort(e: Engine, key: nat, kind: PortKind): Engine
  {
    if key in e.ports then e else WithPort(e, key, NewPort(kind))
  }

  ghost function RemovedPort(e: Engine, key: nat): Engine
  {
    e.(ports := e.ports - {key})
  }

  // ---------------------------------------------------------------- initialize

  /** What initialize does to one port. */
  ghost function InitializedPort(p: PortView, wasWorking: bool, id: u32, msg: seq<byte>): PortView
  {
    if p.kind == ClientFacing then
      p.(link := MarkedOpened(p.link))
    else
      var q := if wasWorking then p.(rootID := id, rootPath := 0) else p;
      q.(link := Sent(MarkedClosed(q.link), msg, true))
  }

  ghost function InitializedPorts(ports: map<nat, PortView>, wasWorking: bool, id: u32, msg: seq<byte>): (r: map<nat, PortView>)
    ensures r.Keys == ports.Keys
  {
    map k | k in ports :: InitializedPort(ports[k], wasWorking, id, msg)
  }

  /** InitializedPorts while the loop is under way: the ids in `pending` are not
      visited yet. */
  ghost function InitializedPortsExcept(ports: map<nat, PortView>, pending: set<nat>, wasWorking: bool, id: u32, msg: seq<byte>): (r: map<nat, PortView>)
    ensures r.Keys == ports.Keys
  {
    map k | k in ports :: if k in pending then ports[k] else InitializedPort(ports[k], wasWorking, id, msg)
  }

  /** Visiting one more port. */
  lemma InitializedPortsStep(ports: map<nat, PortView>, pending: set<nat>, wasWorking: bool, id: u32, msg: seq<byte>, k: nat)
    requires k in pending && k in ports
    ensures InitializedPortsExcept(ports, pending, wasWorking, id, msg)[k := InitializedPort(ports[k], wasWorking, id, msg)]
         == InitializedPortsExcept(ports, pending - {k}, wasWorking, id, msg)
  {
  }

  /** Before the loop nothing is visited; after it, every port is. */
  lemma InitializedPortsEnds(ports: map<nat, PortView>, wasWorking: bool, id: u32, msg: seq<byte>)
    ensures InitializedPortsExcept(ports, ports.Keys, wasWorking, id, msg) == ports
    ensures InitializedPortsExcept(ports, {}, wasWorking, id, msg) == InitializedPorts(ports, wasWorking, id, msg)
  {
  }

  /** initialize: from WORKING the belief is reset to (id, 0); every
      client-facing port is opened, every bridge-facing port is closed and
      force-sent the advertisement of the belief; LINKING, timer armed. */
  ghost function Initialized(e: Engine): (r: Engine)
    ensures SameShape(e, r)
  {
    var wasWorking := e.state == Working;
    var rootID := if wasWorking then e.id else e.rootID;
    var rootPath := if wasWorking then 0 else e.rootPath;
    var msg := RootAdvert(rootID, Inc(rootPath));
    e.(rootID := rootID, rootPath := rootPath, state := Linking, armed := true,
       ports := InitializedPorts(e.ports, wasWorking, e.id, msg))
  }

  // ---------------------------------------------------------- sendToOtherPorts

  /** Whether sendToOtherPorts hands msg to port k. */
  ghost predicate Floods(e: Engine, k: nat, sender: nat, clientPorts: bool)
    requires k in e.ports
  {
    k != sender && (clientPorts || e.ports[k].kind == BridgeFacing)
  }

  /** What sendToOtherPorts does to port k. */
  ghost function FloodedPort(k: nat, p: PortView, sender: nat, msg: seq<byte>, force: bool, clientPorts: bool): PortView
  {
    if k != sender && (clientPorts || p.kind == BridgeFacing) then p.(link := Sent(p.link, msg, force)) else p
  }

  ghost function FloodedPorts(ports: map<nat, PortView>, sender: nat, msg: seq<byte>, force: bool, clientPorts: bool): (r: map<nat, PortView>)
    ensures r.Keys == ports.Keys
  {
    map k | k in ports :: FloodedPort(k, ports[k], sender, msg, force, clientPorts)
  }

  /** FloodedPorts while the loop is under way: the ids in `pending` are not
      visited yet. */
  ghost function FloodedPortsExcept(ports: map<nat, PortView>, pending: set<nat>, sender: nat, msg: seq<byte>, force: bool, clientPorts: bool): (r: map<nat, PortView>)
    ensures r.Keys == ports.Keys
  {
    map k | k in ports :: if k in pending then ports[k] else FloodedPort(k, ports[k], sender, msg, force, clientPorts)
  }

  /** Visiting one more port. */
  lemma FloodedPortsStep(ports: map<nat, PortView>, pending: set<nat>, sender: nat, msg: seq<byte>, force: bool, clientPorts: bool, k: nat)
    requires k in pending && k in ports
    ensures FloodedPortsExcept(ports, pending, sender, msg, force, clientPorts)[k := FloodedPort(k, ports[k], sender, msg, force, clientPorts)]
         == FloodedPortsExcept(ports, pending - {k}, sender, msg, force, clientPorts)
  {
  }

  /** Before the loop nothing is visited; after it, every port is. */
  lemma FloodedPortsEnds(ports: map<nat, PortView>, sender: nat, msg: seq<byte>, force: bool, clientPorts: bool)
    ensures FloodedPortsExcept(ports, ports.Keys, sender, msg, force, clientPorts) == ports
    ensures FloodedPortsExcept(ports, {}, sender, msg, force, clientPorts) == FloodedPorts(ports, sender, msg, force, clientPorts)
  {
  }

  /** sendToOtherPorts: msg is handed to every port the flooding rule picks;
      nothing but those links changes. */
  ghost function SentToOthers(e: Engine, sender: nat, msg: seq<byte>, force: bool, clientPorts: bool): (r: Engine)
    ensures SameShape(e, r) && SameRoots(e, r)
    ensures r.(ports := e.ports) == e
  {
    e.(ports := FloodedPorts(e.ports, sender, msg, force, clientPorts))
  }

  // ------------------------------------------------------------------- rootMsg

  /** Bridge::rootMsg: adopt the pair if it is strictly better than the
      belief, and in any case force-send (rootID, rootPath + 1) to every other
      bridge-facing port. */
  ghost function RootMsg(e: Engine, sender: nat, rootID: u32, rootPath: u32): (r: Engine)
    ensures SameShape(e, r) && SameRoots(e, r)
    ensures r.state == e.state && r.armed == e.armed
  {
    var e1 := if Better(rootID, rootPath, e.rootID, e.rootPath) then e.(rootID := rootID, rootPath := rootPath) else e;
    SentToOthers(e1, sender, RootAdvert(rootID, Inc(rootPath)), true, false)
  }

  /** BridgePort::bridgeRootMsg: only a pair strictly better than the one
      remembered on this port is taken, and only then is it passed on. */
  ghost function BridgeRootMsg(e: Engine, key: nat, rootID: u32, rootPath: u32): (r: Engine)
    requires key in e.ports
    ensures SameShape(e, r)
    ensures r.state == e.state && r.armed == e.armed
  {
    var p := e.ports[key];
    if Better(rootID, rootPath, p.rootID, p.rootPath) then
      RootMsg(WithPort(e, key, p.(rootID := rootID, rootPath := rootPath)), key, rootID, rootPath)
    else e
  }

  // ---------------------------------------------------------- frame handlers

  /** The advertisement branch of bridgeMessageReceived: a WORKING bridge
      restarts the election and handles the pair; if the bridge is then
      LINKING, the pair is handled (again). */
  ghost function Advertised(e: Engine, key: nat, rootID: u32, rootPath: u32): (r: Engine)
    requires key in e.ports
    ensures SameShape(e, r)
  {
    var e1 := if e.state == Working then BridgeRootMsg(Initialized(e), key, rootID, rootPath) else e;
    if e1.state == Linking then BridgeRootMsg(e1, key, rootID, rootPath) else e1
  }

  /** BridgePort::bridgeMessageReceived for a 10-byte frame tagged 'B'. */
  ghost function BridgeFrame(e: Engine, key: nat, frame: seq<byte>): (r: Engine)
    requires key in e.ports && |frame| == FrameSize
    ensures SameShape(e, r)
  {
    var p := e.ports[key];
    if p.kind == ClientFacing then e
    else
      var (rootID, rootPath) := RootOf(frame);
      if frame[1] == SubtypeOpen then WithLink(e, key, MarkedOpened(p.link))
      else Advertised(e, key, rootID, rootPath)
  }

  /** BridgePort::clientMessageReceived: a client frame arriving on an OPENED
      port of a WORKING bridge is flooded, unforced, to every other port. */
  ghost function ClientFrame(e: Engine, key: nat, frame: seq<byte>): (r: Engine)
    requires key in e.ports
    ensures SameShape(e, r) && SameRoots(e, r)
  {
    if e.ports[key].link.status == Opened && e.state == Working then SentToOthers(e, key, frame, false, true)
    else e
  }

  /** The dispatch inside gotMsg: 'B' frames to the bridge handler, the rest
      (the 'C' frames) to the client handler. */
  ghost function Dispatch(e: Engine, key: nat, frame: seq<byte>): (r: Engine)
    requires key in e.ports && |frame| == FrameSize
    ensures SameShape(e, r)
  {
    if frame[0] == TagBridge then BridgeFrame(e, key, frame) else ClientFrame(e, key, frame)
  }

  /** The frames of one gotMsg call, handled in order. */
  ghost function Handle(e: Engine, key: nat, frames: seq<seq<byte>>): (r: Engine)
    requires key in e.ports
    requires forall i :: 0 <= i < |frames| ==> |frames[i]| == FrameSize
    ensures SameShape(e, r)
    decreases |frames|
  {
    if frames == [] then e else Handle(Dispatch(e, key, frames[0]), key, frames[1..])
  }

  /** Handling one more frame after a sequence of frames. */
  lemma {:induction false} HandleSnoc(e: Engine, key: nat, frames: seq<seq<byte>>, frame: seq<byte>)
    requires key in e.ports && |frame| == FrameSize
    requires forall i :: 0 <= i < |frames| ==> |frames[i]| == FrameSize
    ensures Handle(e, key, frames + [frame]) == Dispatch(Handle(e, key, frames), key, frame)
    decreases |frames|
  {
    if frames == [] {
      assert [] + [frame] == [frame];
      assert Handle(e, key, [frame]) == Handle(Dispatch(e, key, frame), key, []);
    } else {
      assert (frames + [frame])[1..] == frames[1..] + [frame];
      HandleSnoc(Dispatch(e, key, frames[0]), key, frames[1..], frame);
    }
  }

  /** The invariant of gotMsg's loop: e is the engine after handling the
      frames taken so far from the chunk whole, and buf holds the rest. */
  ghost predicate Reassembling(e0: Engine, key: nat, whole: seq<byte>, done: seq<seq<byte>>, e: Engine, buf: seq<byte>)
  {
    && key in e0.ports
    && (forall i :: 0 <= i < |done| ==> |done[i]| == FrameSize)
    && Consumed(whole, done, buf, BridgeTags)
    && e == Handle(e0, key, done)
  }

  /** Before the first pass nothing is taken and the engine is the initial one. */
  lemma ReassemblingStart(e0: Engine, key: nat, whole: seq<byte>)
    requires key in e0.ports
    ensures Reassembling(e0, key, whole, [], e0, whole)
  {
    assert [] + Split(whole, BridgeTags).frames == Split(whole, BridgeTags).frames;
  }

  /** One pass of gotMsg's outer loop, from engine e and buffer buf to e1
      and after: the first frame, if there is one, is dispatched and cut out
      together with everything before it; otherwise nothing changes. */
  ghost predicate ScanPass(key: nat, e: Engine, buf: seq<byte>, e1: Engine, after: seq<byte>)
    requires key in e.ports
  {
    match NextFrame(buf, BridgeTags)
    case None => e1 == e && after == buf
    case Some(next) => e1 == Dispatch(e, key, next.0) && after == next.1
  }

  /** A pass of the scan keeps the invariant; a pass that finds a frame
      shortens the buffer, and one that finds none leaves no frame. */
  lemma ReassemblingStep(e0: Engine, key: nat, whole: seq<byte>, done: seq<seq<byte>>, e: Engine, buf: seq<byte>, e1: Engine, after: seq<byte>)
    requires Reassembling(e0, key, whole, done, e, buf) && ScanPass(key, e, buf, e1, after)
    ensures Reassembling(e0, key, whole, Taken(done, buf, BridgeTags), e1, after)
    ensures NextFrame(buf, BridgeTags).Some? ==> |after| + FrameSize <= |buf|
    ensures NextFrame(buf, BridgeTags).None? ==> NoFrame(after, BridgeTags) && after == buf
  {
    if NextFrame(buf, BridgeTags).Some? {
      var frame := NextFrame(buf, BridgeTags).value.0;
      ConsumedStep(whole, done, buf, BridgeTags);
      HandleSnoc(e0, key, done, frame);
      FramesSnoc(done, frame);
    }
  }

  /** When the scan finds nothing more, e and buf are the final ones. */
  lemma ReassemblingDone(e0: Engine, key: nat, whole: seq<byte>, done: seq<seq<byte>>, e: Engine, buf: seq<byte>)
    requires Reassembling(e0, key, whole, done, e, buf) && NoFrame(buf, BridgeTags)
    ensures e == Handle(e0, key, Split(whole, BridgeTags).frames) && buf == Split(whole, BridgeTags).rest
  {
    ConsumedDone(whole, done, buf, BridgeTags);
  }

  // ---------------------------------------------------- connect and disconnect

  /** Bridge::disconnected: if the port's pair is exactly the belief, the
      route to the root is lost and the election restarts. */
  ghost function Disconnected(e: Engine, key: nat): (r: Engine)
    requires key in e.ports
    ensures SameShape(e, r)
  {
    var p := e.ports[key];
    if p.rootID == e.rootID && p.rootPath == e.rootPath then Initialized(e) else e
  }

  /** The end of a connection attempt (the port's bookkeeping) followed by
      BridgePort::connected: a client-facing port opens, a bridge-facing port
      restarts the election. */
  ghost function PortConnected(e: Engine, key: nat): (r: Engine)
    requires key in e.ports
    ensures SameShape(e, r)
  {
    var l := e.ports[key].link;
    if l.closeRequested || l.killRequested then e
    else
      var e1 := WithLink(e, key, Established(l));
      if e.ports[key].kind == ClientFacing then WithLink(e1, key, MarkedOpened(Established(l)))
      else Initialized(e1)
  }

  /** Port cleanup followed by BridgePort::disconnected. */
  ghost function PortDisconnected(e: Engine, key: nat): (r: Engine)
    requires key in e.ports
    ensures SameShape(e, r)
  {
    var e1 := WithLink(e, key, CleanedUp(e.ports[key].link));
    if e.ports[key].kind == ClientFacing then e1 else Disconnected(e1, key)
  }

  // ------------------------------------------------------------------- timeout

  /** Descending from any element reaches a least one. */
  lemma {:induction false} LeastExists(s: set<nat>, x: nat)
    requires x in s
    ensures exists m :: m in s && forall y :: y in s ==> m <= y
    decreases x
  {
    if y :| y in s && y < x {
      LeastExists(s, y);
    } else {
      assert forall y :: y in s ==> x <= y;
    }
  }

  /** The smallest element of a non-empty set of port ids. */
  function Least(s: set<nat>): (m: nat)
    requires s != {}
    ensures m in s && forall x :: x in s ==> m <= x
  {
    var x :| x in s;
    LeastExists(s, x);
    var m :| m in s && forall x :: x in s ==> m <= x;
    m
  }

  /** OpenedForeignPorts while the loop is under way: the ids in `pending` are not
      visited yet. */
  ghost function OpenedForeignPortsExcept(ports: map<nat, PortView>, pending: set<nat>, rootID: u32): (r: map<nat, PortView>)
    ensures r.Keys == ports.Keys
  {
    map k | k in ports :: if k in pending then ports[k] else OpenedIfForeign(ports[k], rootID)
  }

  /** Visiting one more port. */
  lemma OpenedForeignPortsStep(ports: map<nat, PortView>, pending: set<nat>, rootID: u32, k: nat)
    requires k in pending && k in ports
    ensures OpenedForeignPortsExcept(ports, pending, rootID)[k := OpenedIfForeign(ports[k], rootID)]
         == OpenedForeignPortsExcept(ports, pending - {k}, rootID)
  {
  }

  /** Before the loop nothing is visited; after it, every port is. */
  lemma OpenedForeignPortsEnds(ports: map<nat, PortView>, rootID: u32)
    ensures OpenedForeignPortsExcept(ports, ports.Keys, rootID) == ports
    ensures OpenedForeignPortsExcept(ports, {}, rootID) == OpenedForeignPorts(ports, rootID)
  {
  }

  /** Least is the only minimum. */
  lemma LeastUnique(s: set<nat>, m: nat)
    requires m in s && forall x :: x in s ==> m <= x
    ensures Least(s) == m
  {
  }

  /** A bridge-facing port whose pair is exactly the belief. */
  ghost predicate RootPort(e: Engine, k: nat)
    requires k in e.ports
  {
    e.ports[k].kind == BridgeFacing && e.ports[k].rootID == e.rootID && e.ports[k].rootPath == e.rootPath
  }

  ghost function RootPorts(e: Engine): set<nat>
  {
    set k | k in e.ports && RootPort(e, k)
  }

  /** The first pass of timeout on one port. */
  ghost function OpenedIfForeign(p: PortView, rootID: u32): PortView
  {
    if p.kind == BridgeFacing && p.rootID != rootID then p.(link := MarkedOpened(p.link)) else p
  }

  ghost function OpenedForeignPorts(ports: map<nat, PortView>, rootID: u32): (r: map<nat, PortView>)
    ensures r.Keys == ports.Keys
  {
    map k | k in ports :: OpenedIfForeign(ports[k], rootID)
  }

  /** The port the second pass opens, if any: the lowest-id root port, and
      only when the root is some other bridge. */
  ghost function ChosenRootPort(e: Engine): Option<nat>
  {
    if e.rootID != e.id && RootPorts(e) != {} then Some(Least(RootPorts(e))) else None
  }

  /** Bridge::timeout: open every bridge-facing port that disagrees with the
      believed root id, open the first root port and force-send it an open
      request, then settle in WORKING; the timer has fired and is disarmed. */
  ghost function TimedOut(e: Engine): (r: Engine)
    ensures SameShape(e, r) && SameRoots(e, r)
  {
    var e1 := e.(ports := OpenedForeignPorts(e.ports, e.rootID));
    var e2 := match ChosenRootPort(e)
              case None => e1
              case Some(k) => WithLink(e1, k, Sent(MarkedOpened(e1.ports[k].link), OpenRequest(), true));
    e2.(state := Working, armed := false)
  }

  /** The first pass of timeout changes only links, so the second pass sees
      the same root ports and makes the same choice. */
  lemma OpenedForeignKeepsChoice(e: Engine)
    ensures var e1 := e.(ports := OpenedForeignPorts(e.ports, e.rootID));
      RootPorts(e1) == RootPorts(e) && ChosenRootPort(e1) == ChosenRootPort(e)
  {
    var e1 := e.(ports := OpenedForeignPorts(e.ports, e.rootID));
    assert forall k :: k in e.ports ==> (RootPort(e1, k) <==> RootPort(e, k));
    assert RootPorts(e1) == RootPorts(e);
  }

  // ===================================================================== lemmas

  /** initialize resets the belief only from WORKING, and always ends in
      LINKING with the timer armed. */
  lemma InitializedBelief(e: Engine)
    ensures Initialized(e).state == Linking && Initialized(e).armed
    ensures e.state == Working ==> Initialized(e).rootID == e.id && Initialized(e).rootPath == 0
    ensures e.state == Linking ==> Initialized(e).rootID == e.rootID && Initialized(e).rootPath == e.rootPath
  {
  }

  /** initialize on each port: client-facing ports are opened and nothing
      else; bridge-facing ports are closed and force-sent the advertisement of
      the (new) belief, and their pair is reset to (id, 0) only from WORKING. */
  lemma InitializedPortEffects(e: Engine, k: nat)
    requires k in e.ports
    ensures var r := Initialized(e); var p := e.ports[k]; var q := r.ports[k];
      && (p.kind == ClientFacing ==> q == p.(link := MarkedOpened(p.link)))
      && (p.kind == BridgeFacing ==>
            && q.link == Sent(MarkedClosed(p.link), RootAdvert(r.rootID, Inc(r.rootPath)), true)
            && (p.link.connected ==>
                  q.link.status == Closed && q.link.wire == p.link.wire + [RootAdvert(r.rootID, Inc(r.rootPath))])
            && (e.state == Working ==> q.rootID == e.id && q.rootPath == 0)
            && (e.state == Linking ==> q.rootID == p.rootID && q.rootPath == p.rootPath))
  {
  }

  /** The belief never gets worse in rootMsg: the received pair is adopted
      exactly when it is strictly better. */
  lemma RootMsgBelief(e: Engine, sender: nat, rootID: u32, rootPath: u32)
    ensures var r := RootMsg(e, sender, rootID, rootPath);
      && !Better(e.rootID, e.rootPath, r.rootID, r.rootPath)
      && (Better(rootID, rootPath, e.rootID, e.rootPath) ==> r.rootID == rootID && r.rootPath == rootPath)
      && (!Better(rootID, rootPath, e.rootID, e.rootPath) ==> r.rootID == e.rootID && r.rootPath == e.rootPath)
  {
    var e1 := if Better(rootID, rootPath, e.rootID, e.rootPath) then e.(rootID := rootID, rootPath := rootPath) else e;
    var r := SentToOthers(e1, sender, RootAdvert(rootID, Inc(rootPath)), true, false);
    assert r.rootID == e1.rootID && r.rootPath == e1.rootPath;
  }

  /** rootMsg forwards (rootID, rootPath + 1), forced, to exactly the
      bridge-facing ports other than the sender. */
  lemma RootMsgForwards(e: Engine, sender: nat, rootID: u32, rootPath: u32, k: nat)
    requires k in e.ports
    ensures var r := RootMsg(e, sender, rootID, rootPath);
      r.ports[k].link == if k != sender && e.ports[k].kind == BridgeFacing
                         then Sent(e.ports[k].link, RootAdvert(rootID, Inc(rootPath)), true)
                         else e.ports[k].link
  {
  }

  /** sendToOtherPorts never reaches the sender, and reaches client-facing
      ports only when asked to. */
  lemma SentToOthersSkips(e: Engine, sender: nat, msg: seq<byte>, force: bool, clientPorts: bool)
    ensures var r := SentToOthers(e, sender, msg, force, clientPorts);
      && (sender in e.ports ==> r.ports[sender] == e.ports[sender])
      && (!clientPorts ==> forall k :: k in e.ports && e.ports[k].kind == ClientFacing ==> r.ports[k] == e.ports[k])
      && (forall k :: k in e.ports && k != sender && (clientPorts || e.ports[k].kind == BridgeFacing) ==>
            r.ports[k].link == Sent(e.ports[k].link, msg, force))
  {
  }

  /** bridgeRootMsg replaces the remembered pair exactly when the new one is
      strictly better, so the remembered pair never increases; otherwise
      nothing at all happens. */
  lemma BridgeRootMsgMonotone(e: Engine, key: nat, rootID: u32, rootPath: u32)
    requires key in e.ports
    ensures var r := BridgeRootMsg(e, key, rootID, rootPath); var p := e.ports[key];
      && !Better(p.rootID, p.rootPath, r.ports[key].rootID, r.ports[key].rootPath)
      && (Better(rootID, rootPath, p.rootID, p.rootPath) ==>
            r == RootMsg(WithPort(e, key, p.(rootID := rootID, rootPath := rootPath)), key, rootID, rootPath)
            && r.ports[key].rootID == rootID && r.ports[key].rootPath == rootPath)
      && (!Better(rootID, rootPath, p.rootID, p.rootPath) ==> r == e)
  {
  }

  /** Handling the same advertisement twice on a port is the same as handling
      it once: the second pair is not strictly better than the first. */
  lemma {:induction false} BridgeRootMsgIdempotent(e: Engine, key: nat, rootID: u32, rootPath: u32)
    requires key in e.ports
    ensures var r := BridgeRootMsg(e, key, rootID, rootPath);
      BridgeRootMsg(r, key, rootID, rootPath) == r
  {
    var p := e.ports[key];
    if Better(rootID, rootPath, p.rootID, p.rootPath) {
      var r := BridgeRootMsg(e, key, rootID, rootPath);
      assert r.ports[key].rootID == rootID && r.ports[key].rootPath == rootPath;
      assert !Better(rootID, rootPath, rootID, rootPath);
    }
  }

  /** A port still remembering (0, 0) can never accept an advertisement. */
  lemma ZeroPairAcceptsNothing(e: Engine, key: nat, rootID: u32, rootPath: u32)
    requires key in e.ports && e.ports[key].rootID == 0 && e.ports[key].rootPath == 0
    ensures BridgeRootMsg(e, key, rootID, rootPath) == e
  {
  }

  /** A 'B' frame on a client-facing port is ignored entirely. */
  lemma ClientFacingIgnoresBridgeFrames(e: Engine, key: nat, frame: seq<byte>)
    requires key in e.ports && |frame| == FrameSize && e.ports[key].kind == ClientFacing
    ensures BridgeFrame(e, key, frame) == e
  {
  }

  /** An open request marks the port opened and changes nothing else. */
  lemma OpenRequestOnlyOpens(e: Engine, key: nat, frame: seq<byte>)
    requires key in e.ports && |frame| == FrameSize && e.ports[key].kind == BridgeFacing
    requires frame[1] == SubtypeOpen
    ensures BridgeFrame(e, key, frame) == WithLink(e, key, MarkedOpened(e.ports[key].link))
  {
  }

  /** Any other subtype is a root advertisement. On a WORKING bridge it
      restarts the election first; the LINKING-branch call that follows in the
      source repeats the same pair and is a no-op. */
  lemma {:induction false} AdvertisementReceived(e: Engine, key: nat, frame: seq<byte>)
    requires key in e.ports && |frame| == FrameSize && e.ports[key].kind == BridgeFacing
    requires frame[1] != SubtypeOpen
    ensures var (rootID, rootPath) := RootOf(frame);
      BridgeFrame(e, key, frame) ==
        if e.state == Working then BridgeRootMsg(Initialized(e), key, rootID, rootPath)
        else BridgeRootMsg(e, key, rootID, rootPath)
  {
    var (rootID, rootPath) := RootOf(frame);
    if e.state == Working {
      BridgeRootMsgIdempotent(Initialized(e), key, rootID, rootPath);
    }
  }

  /** A client frame is flooded only from an OPENED port of a WORKING bridge,
      unforced, to every port but the one it came in on. */
  lemma ClientFrameFloods(e: Engine, key: nat, frame: seq<byte>)
    requires key in e.ports
    ensures var r := ClientFrame(e, key, frame);
      e.ports[key].link.status == Opened && e.state == Working ==>
        && r.rootID == e.rootID && r.rootPath == e.rootPath && r.state == e.state && r.armed == e.armed
        && forall k :: k in e.ports ==>
             && r.ports[k].rootID == e.ports[k].rootID && r.ports[k].rootPath == e.ports[k].rootPath
             && r.ports[k].link == if k == key then e.ports[k].link else Sent(e.ports[k].link, frame, false)
    ensures !(e.ports[key].link.status == Opened && e.state == Working) ==> ClientFrame(e, key, frame) == e
    ensures ClientFrame(e, key, frame).ports[key] == e.ports[key]
  {
    SentToOthersSkips(e, key, frame, false, true);
  }

  /** disconnected restarts the election if and only if the port's pair is
      exactly the belief: the bridge is then LINKING with the timer armed, its
      belief is reset to (own id, 0) from WORKING and kept from LINKING;
      otherwise nothing at all changes. */
  lemma DisconnectedRestartsIff(e: Engine, key: nat)
    requires key in e.ports
    ensures var p := e.ports[key]; var r := Disconnected(e, key);
      && (p.rootID == e.rootID && p.rootPath == e.rootPath ==>
            && r.state == Linking && r.armed
            && (e.state == Working ==> r.rootID == e.id && r.rootPath == 0)
            && (e.state == Linking ==> r.rootID == e.rootID && r.rootPath == e.rootPath))
      && (p.rootID != e.rootID || p.rootPath != e.rootPath ==> r == e)
  {
  }

  /** The disconnect event on a bridge-facing port: the link is cleaned up,
      and if the port's pair is exactly the belief the election restarts,
      resetting the belief to (own id, 0) only from WORKING; otherwise only
      the link changes. */
  lemma BridgePortDisconnected(e: Engine, key: nat)
    requires key in e.ports && e.ports[key].kind == BridgeFacing
    ensures var p := e.ports[key]; var r := PortDisconnected(e, key);
      && (p.rootID == e.rootID && p.rootPath == e.rootPath ==>
            && r == Initialized(WithLink(e, key, CleanedUp(p.link)))
            && r.state == Linking && r.armed
            && (e.state == Working ==> r.rootID == e.id && r.rootPath == 0)
            && (e.state == Linking ==> r.rootID == e.rootID && r.rootPath == e.rootPath))
      && (p.rootID != e.rootID || p.rootPath != e.rootPath ==> r == WithLink(e, key, CleanedUp(p.link)))
  {
    var e1 := WithLink(e, key, CleanedUp(e.ports[key].link));
    assert e1.ports[key].rootID == e.ports[key].rootID && e1.ports[key].rootPath == e.ports[key].rootPath;
    InitializedBelief(e1);
  }

  /** On connect, a client-facing port just opens; a bridge-facing port
      restarts the election. */
  lemma ConnectCallbacks(e: Engine, key: nat)
    requires key in e.ports
    requires !e.ports[key].link.closeRequested && !e.ports[key].link.killRequested
    ensures e.ports[key].kind == ClientFacing ==>
      && PortConnected(e, key) == WithLink(e, key, MarkedOpened(Established(e.ports[key].link)))
      && PortConnected(e, key).ports[key].link.status == Opened
    ensures e.ports[key].kind == BridgeFacing ==>
      && PortConnected(e, key) == Initialized(WithLink(e, key, Established(e.ports[key].link)))
      && PortConnected(e, key).state == Linking
  {
  }

  /** On disconnect a client-facing port changes nothing beyond its own
      link, which is cleaned up, whether or not a close or kill is pending. */
  lemma ClientPortDisconnected(e: Engine, key: nat)
    requires key in e.ports && e.ports[key].kind == ClientFacing
    ensures var r := PortDisconnected(e, key);
      && r.(ports := e.ports) == e
      && r.ports == e.ports[key := e.ports[key].(link := CleanedUp(e.ports[key].link))]
      && !r.ports[key].link.connected && r.ports[key].link.status == NotConnected
      && r.ports[key].link.(connected := e.ports[key].link.connected, status := e.ports[key].link.status) == e.ports[key].link
  {
  }

  /** What timeout does to each port: client-facing ports and root pairs are
      untouched; bridge-facing ports that disagree with the believed root id
      are opened; of the ports whose pair is the belief, only the chosen one
      (the lowest id, and only if the root is another bridge) is opened and
      force-sent an open request. The bridge ends WORKING. */
  lemma TimedOutPorts(e: Engine, k: nat)
    requires k in e.ports
    ensures var r := TimedOut(e); var p := e.ports[k];
      && r.state == Working && !r.armed && r.rootID == e.rootID && r.rootPath == e.rootPath
      && (p.kind == ClientFacing ==> r.ports[k] == p)
      && (p.kind == BridgeFacing && p.rootID != e.rootID ==> r.ports[k] == p.(link := MarkedOpened(p.link)))
      && (RootPort(e, k) ==>
            r.ports[k] == if ChosenRootPort(e) == Some(k)
                          then p.(link := Sent(MarkedOpened(p.link), OpenRequest(), true))
                          else p)
      && (p.kind == BridgeFacing && p.rootID == e.rootID && p.rootPath != e.rootPath ==> r.ports[k] == p)
  {
  }

  /** The port timeout opens toward the root is the first root port in
      ascending id order, it exists only when the root is another bridge, and
      it is the only root port whose status can change. */
  lemma {:induction false} TimedOutOpensOneRootPort(e: Engine)
    ensures ChosenRootPort(e).Some? <==> e.rootID != e.id && RootPorts(e) != {}
    ensures ChosenRootPort(e).Some? ==>
      var k := ChosenRootPort(e).value;
      && k in e.ports && RootPort(e, k)
      && forall j :: j in e.ports && RootPort(e, j) ==> k <= j
    ensures forall j :: j in e.ports && RootPort(e, j) && TimedOut(e).ports[j] != e.ports[j] ==> ChosenRootPort(e) == Some(j)
  {
    forall j | j in e.ports && RootPort(e, j) ensures j in RootPorts(e) {
    }
    forall j | j in e.ports && RootPort(e, j) && TimedOut(e).ports[j] != e.ports[j]
      ensures ChosenRootPort(e) == Some(j)
    {
      TimedOutPorts(e, j);
    }
  }

  // ======================================================= the bridge invariant

  /** What every reachable engine satisfies: the link status bookkeeping is
      consistent, the belief is never worse than the bridge itself, and no
      port remembers a pair worse than the bridge itself. */
  ghost predicate Inv(e: Engine)
  {
    && !Better(e.id, 0, e.rootID, e.rootPath)
    && forall k :: k in e.ports ==>
         LinkOk(e.ports[k].link) && !Better(e.id, 0, e.ports[k].rootID, e.ports[k].rootPath)
  }

  lemma NewEngineInv(id: u32)
    ensures Inv(NewEngine(id))
    ensures NewEngine(id).rootID == id && NewEngine(id).rootPath == 0 && NewEngine(id).state == Working
  {
  }

  lemma AddRemoveInv(e: Engine, key: nat, kind: PortKind)
    requires Inv(e)
    ensures Inv(AddedPort(e, key, kind)) && Inv(RemovedPort(e, key))
  {
  }

  lemma InitializedInv(e: Engine)
    requires Inv(e)
    ensures Inv(Initialized(e))
  {
    var r := Initialized(e);
    forall k | k in r.ports
      ensures LinkOk(r.ports[k].link) && !Better(r.id, 0, r.ports[k].rootID, r.ports[k].rootPath)
    {
      InitializedPortEffects(e, k);
      LinkOkPreserved(e.ports[k].link, RootAdvert(r.rootID, Inc(r.rootPath)), true);
      LinkOkPreserved(MarkedClosed(e.ports[k].link), RootAdvert(r.rootID, Inc(r.rootPath)), true);
    }
  }

  lemma SentToOthersInv(e: Engine, sender: nat, msg: seq<byte>, force: bool, clientPorts: bool)
    requires Inv(e)
    ensures Inv(SentToOthers(e, sender, msg, force, clientPorts))
  {
    var r := SentToOthers(e, sender, msg, force, clientPorts);
    forall k | k in r.ports ensures LinkOk(r.ports[k].link) {
      LinkOkPreserved(e.ports[k].link, msg, force);
    }
  }

  lemma RootMsgInv(e: Engine, sender: nat, rootID: u32, rootPath: u32)
    requires Inv(e)
    ensures Inv(RootMsg(e, sender, rootID, rootPath))
  {
    var e1 := if Better(rootID, rootPath, e.rootID, e.rootPath) then e.(rootID := rootID, rootPath := rootPath) else e;
    assert Inv(e1);
    SentToOthersInv(e1, sender, RootAdvert(rootID, Inc(rootPath)), true, false);
  }

  lemma BridgeRootMsgInv(e: Engine, key: nat, rootID: u32, rootPath: u32)
    requires Inv(e) && key in e.ports
    ensures Inv(BridgeRootMsg(e, key, rootID, rootPath))
  {
    var p := e.ports[key];
    if Better(rootID, rootPath, p.rootID, p.rootPath) {
      var e1 := WithPort(e, key, p.(rootID := rootID, rootPath := rootPath));
      assert Inv(e1);
      RootMsgInv(e1, key, rootID, rootPath);
    }
  }

  lemma DispatchInv(e: Engine, key: nat, frame: seq<byte>)
    requires Inv(e) && key in e.ports && |frame| == FrameSize
    ensures Inv(Dispatch(e, key, frame))
  {
    if frame[0] == TagBridge {
      var p := e.ports[key];
      if p.kind == BridgeFacing {
        var (rootID, rootPath) := RootOf(frame);
        if frame[1] == SubtypeOpen {
          LinkOkPreserved(p.link, frame, true);
        } else if e.state == Working {
          InitializedInv(e);
          BridgeRootMsgInv(Initialized(e), key, rootID, rootPath);
          BridgeRootMsgInv(BridgeRootMsg(Initialized(e), key, rootID, rootPath), key, rootID, rootPath);
        } else {
          BridgeRootMsgInv(e, key, rootID, rootPath);
          BridgeRootMsgInv(BridgeRootMsg(e, key, rootID, rootPath), key, rootID, rootPath);
        }
      }
    } else if e.ports[key].link.status == Opened && e.state == Working {
      SentToOthersInv(e, key, frame, false, true);
    }
  }

  /** Every frame a port delivers keeps the invariant. */
  lemma {:induction false} HandleInv(e: Engine, key: nat, frames: seq<seq<byte>>)
    requires Inv(e) && key in e.ports
    requires forall i :: 0 <= i < |frames| ==> |frames[i]| == FrameSize
    ensures Inv(Handle(e, key, frames))
    decreases |frames|
  {
    if frames != [] {
      DispatchInv(e, key, frames[0]);
      HandleInv(Dispatch(e, key, frames[0]), key, frames[1..]);
    }
  }

  lemma TimedOutInv(e: Engine)
    requires Inv(e)
    ensures Inv(TimedOut(e))
  {
    var r := TimedOut(e);
    forall k | k in r.ports ensures LinkOk(r.ports[k].link) {
      TimedOutPorts(e, k);
      LinkOkPreserved(e.ports[k].link, OpenRequest(), true);
      LinkOkPreserved(MarkedOpened(e.ports[k].link), OpenRequest(), true);
    }
  }

  lemma ConnectDisconnectInv(e: Engine, key: nat)
    requires Inv(e) && key in e.ports
    ensures Inv(PortConnected(e, key)) && Inv(PortDisconnected(e, key))
  {
    var l := e.ports[key].link;
    LinkOkPreserved(l, [], true);
    LinkOkPreserved(Established(l), [], true);
    var e1 := WithLink(e, key, Established(l));
    assert Inv(e1);
    InitializedInv(e1);
    var e2 := WithLink(e, key, CleanedUp(l));
    assert Inv(e2);
    InitializedInv(e2);
  }
}
