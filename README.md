# stp: a verified model of the spanning-tree bridges and clients

The system is a toy network of *bridges* and *clients* connected by TCP
links. Each node owns a table of *ports* (connection actors) keyed by port
id. Bridges elect a root bridge by flooding 10-byte root advertisements,
`'B', 0, rootID, rootPath + 1`. They then open the links that lead away from
the root, plus the one link that leads towards it, and forward client letters,
`'C', source, dest, letter`, only over opened links. Clients send letters and
record the ones addressed to them.

The model has seven modules:

- `Wire`: the three fixed frames. Integers travel as big-endian unsigned 32-bit
  values, and `Inc` is the wrapping `rootPath + 1`. Encoders and decoders are
  proved to be inverses.
- `Framing`: frame reassembly from an arbitrary byte stream, as both port kinds
  do it. The scan finds the first tag byte followed by a whole frame, dispatches
  it, and drops everything up to its end. `Split` is the whole extraction as a
  function, and `FindFrame` is the inner scan loop.
- `Ports`: a connection actor's bookkeeping.
  - The live socket flag and the admission status (NOT_CONNECTED, OPENED or
    CLOSED).
  - The close and kill requests, and the reconnect delay.
  - The frames handed to the socket (`wire`).
  - The `Port` class next to the value `LinkView` and the pure transition
    functions.
- `Nodes`: the port table, `Node<P>`, with `addPort` and `removePort`.
- `Election`: the bridge's protocol as functions on a value (`Engine`). It
  covers `initialize`, `sendToOtherPorts`, `rootMsg`, `bridgeRootMsg`, frame
  dispatch, `connected`, `disconnected` and `timeout`, plus the lemmas stating
  what the election promises and the invariant every handler keeps (`Inv`).
- `Bridges`: the bridge as objects. A `Bridge` holds a `Node<BridgePort>`, and
  each `BridgePort` holds a `Port`, a receive buffer and the best root heard on
  it. Every handler is a method proved to move `Abs()` (the bridge's protocol
  state as a value) exactly as its `Election` counterpart: `CreatePort` as
  `AddedPort`, `RemovePort` as `RemovedPort`, `Initialize` as `Initialized`,
  `SendToOtherPorts` as `SentToOthers`, `RootMsg`, `BridgeRootMsg`,
  `Disconnected`, `PortConnected` and `PortDisconnected` as the functions of
  the same name, `BridgeMessageReceived` as `BridgeFrame`, `Advertisement` as
  `Advertised`, `ClientMessageReceived` as `ClientFrame`, `DispatchFrame` as
  `Dispatch`, `GotMsg` as `Handle` over the frames `Split` extracts, and
  `Timeout` as `TimedOut`. `Inv` is a safety property of that value-level
  engine: the `*Inv` lemmas show that every `Election` function keeps it, so
  it holds of `Abs()` after any run of handlers from a new bridge, but it is
  not part of `Bridge.Valid()` and no method contract states it. The
  loops over the port table run in ascending id order, as iteration over a
  `std::map` does.
- `Clients`: the client node with its single port (always id 0), the client
  port's reassembly loop, and the letters it records.

Behaviour of the code worth noting:

- `initialize` resets a bridge-facing port's remembered pair to (own id, 0)
  only when the bridge was WORKING (src/Bridge.cpp:243-246). In LINKING the
  remembered pairs are kept.
- Hence a disconnect of the root port while LINKING restarts the election
  without resetting the belief.
- A WORKING bridge can believe in a foreign root: `timeout` leaves the belief
  as it is and sets WORKING.
- On a root advertisement received while WORKING, the source handles the pair
  twice. The second call is proved to be a no-op (`AdvertisementReceived`).

Integer widths: ids and path lengths are `u32`, a bounded integer type. The
only arithmetic on them is `rootPath + 1`, written out as the wrapping `Inc`.
Bytes are `byte`, from 0 to 255. Port ids are unbounded naturals, because the
model never does arithmetic on them.

## Model

| member | source | states |
|---|---|---|
| Wire.Inc | src/Bridge.cpp:233 | the unsigned `rootPath + 1`: the successor below 2^32 - 1, and 0 at 2^32 - 1 |
| Wire.Be32 | src/Bridge.cpp:232-235 | htonl gives four bytes, and reading them back with ntohl gives the value again |
| Wire.Be32OfFromBe32 | src/BridgePort.cpp:46-49 | any four bytes are the htonl encoding of the value ntohl reads from them |
| Wire.RootAdvert | src/Bridge.cpp:281-287 | the advertisement is 10 bytes, tagged 'B' with subtype 0, and a bridge port decodes exactly (rootID, path) from it |
| Wire.OpenRequest | src/Bridge.cpp:325-327 | the open request is 10 bytes, 'B' with subtype 1, and it decodes as the pair (0, 0) |
| Wire.RootAdvertOfRootOf | src/BridgePort.cpp:46-49 | every 10-byte 'B' frame with subtype 0 is the advertisement of the pair decoded from it (decode then encode is the identity) |
| Wire.AdvertisedPathWraps | src/Bridge.cpp:285 | a believed path of 2^32 - 1 is advertised as path 0 |
| Wire.LetterFrame | src/Client.cpp:87-94 | the letter frame is 10 bytes tagged 'C', and a client port decodes exactly (source, dest, letter) from it |
| Wire.LetterFrameOfLetterOf | src/ClientPort.cpp:34-38 | every 10-byte 'C' frame is the letter frame of the fields decoded from it |
| Framing.FirstFrameFrom | src/BridgePort.cpp:22-36 | the scan from i finds the first tag byte at or after i with a whole frame after it; None means no tag byte from i on has room for a frame |
| Framing.FirstFrame | src/BridgePort.cpp:22-36 | the index found starts a whole frame with no tag byte before it; None means the buffer holds no frame |
| Framing.FindFrame | src/BridgePort.cpp:22-36 | the inner `for` scan returns exactly the index FirstFrame specifies, or None |
| Framing.NextFrame | src/BridgePort.cpp:23-26 | the frame taken is 10 bytes starting with a tag, and at least 10 bytes fewer remain; None exactly when the buffer holds no frame |
| Framing.Split | src/BridgePort.cpp:20-37 | every extracted frame is 10 bytes starting with an accepted tag; what is left is a suffix of the buffer, holds no frame, and the frames and the rest fit in the buffer |
| Framing.SplitNoFrame | src/BridgePort.cpp:20-21 | a buffer with no frame in it is left untouched and yields no frames |
| Framing.SplitStep | src/BridgePort.cpp:24-27 | the outer loop dispatches the first frame, then carries on with the bytes after it |
| Framing.ConsumedStep | src/BridgePort.cpp:24-26 | taking out the next frame keeps the loop invariant: the frames taken so far, then those of the buffer, are the whole extraction, with the same remainder |
| Framing.ConsumedDone | src/BridgePort.cpp:20-21 | when the buffer holds no frame, the frames taken are exactly those of the whole chunk and the buffer is its remainder |
| Framing.ClientFramesAreClientTagged | src/ClientPort.cpp:21-27 | a client port never treats a 'B' byte as the start of a frame |
| Ports.SentSpec | src/Port.cpp:339-351 | one frame is appended to the socket log exactly when the port is connected and either forced or OPENED, and nothing but the log changes; otherwise the port is unchanged; an OPENED port, or a forced send on a connected port, appends exactly that frame; a disconnected port drops everything |
| Ports.LinkOkPreserved | src/Port.cpp:353-365 | send, markOpened, markClosed, a successful connect and cleanup all keep "status is not NOT_CONNECTED exactly while connected" |
| Ports.EstablishedThenCleanedUp | src/Port.cpp:263-290 | after a successful connect the port is connected and CLOSED (OPENED once marked opened); after cleanup it is not connected and NOT_CONNECTED |
| Ports.Port.constructor | src/Port.cpp:11-24 | a new port is not connected, NOT_CONNECTED, has no close or kill pending, sent nothing and has a reconnect delay of 1 |
| Ports.Port.SendMessage | src/Port.cpp:339-351 | the port's new state is the send rule applied to the old one |
| Ports.Port.SendOutcome | src/Port.cpp:348-350 | a send error or a short write sets the close flag and nothing else; a full write changes nothing |
| Ports.Port.MarkOpened | src/Port.cpp:353-358 | only a connected port becomes OPENED; nothing else changes |
| Ports.Port.MarkClosed | src/Port.cpp:360-365 | only a connected port becomes CLOSED; nothing else changes |
| Ports.Port.BeginAttempt | src/Port.cpp:131-134 | each connection attempt clears the close flag and nothing else |
| Ports.Port.ConnectSucceeded | src/Port.cpp:263-268 | unless close or kill was requested, the port becomes connected and CLOSED, and the connected callback runs; otherwise nothing changes |
| Ports.Port.Cleanup | src/Port.cpp:271-290 | the port becomes not connected and NOT_CONNECTED; nothing else changes |
| Ports.Port.RequestClose | src/Port.h:31-35 | close(seconds) raises the close flag and sets the reconnect delay to seconds |
| Ports.Port.RequestKill | src/Port.h:26-29 | kill() raises the kill flag and nothing else |
| Ports.Port.FinishCloseWait | src/Port.cpp:94 | after the post-close wait the reconnect delay is back to 1 |
| Nodes.Node.AddPort | src/Node.cpp:4-17 | a duplicate id is rejected and the table is unchanged; otherwise the port is filed under its id |
| Nodes.Node.RemovePort | src/Node.cpp:19-31 | the entry with that id, and only it, is erased; the result says whether it was there |
| Election.BetterIsStrictTotalOrder | src/BridgePort.cpp:120 | "lower id, then lower path" is irreflexive, asymmetric, transitive and total |
| Election.Initialized | src/Bridge.cpp:220-257 | initialize keeps the set of ports, their kinds and the bridge id |
| Election.InitializedBelief | src/Bridge.cpp:223-256 | initialize ends in LINKING with the timer armed; from WORKING the belief becomes (own id, 0), and from LINKING it is kept |
| Election.InitializedPortEffects | src/Bridge.cpp:238-251 | a client-facing port is only marked opened; a bridge-facing port is marked closed and force-sent the advertisement of (belief, path + 1), and its pair is reset to (own id, 0) only from WORKING |
| Election.SentToOthers | src/Bridge.cpp:259-269 | flooding changes only the ports' links: the ports, kinds, remembered pairs, belief and state stay as they were |
| Election.SentToOthersSkips | src/Bridge.cpp:262-268 | the sender is never sent to; client-facing ports are skipped unless asked for; every other port is handed the frame with the given force |
| Election.RootMsg | src/Bridge.cpp:271-290 | rootMsg keeps the ports, kinds, remembered pairs, state and timer |
| Election.RootMsgBelief | src/Bridge.cpp:275-279 | the received pair is adopted exactly when it is strictly better, so the belief never gets worse |
| Election.RootMsgForwards | src/Bridge.cpp:281-289 | (rootID, rootPath + 1) is force-sent to exactly the bridge-facing ports other than the sender |
| Election.BridgeRootMsg | src/BridgePort.cpp:118-129 | bridgeRootMsg keeps the shape of the bridge, its state and its timer |
| Election.BridgeRootMsgMonotone | src/BridgePort.cpp:118-129 | the port's pair is replaced and passed on to rootMsg exactly when the new one is strictly better, so it never gets worse; otherwise nothing at all happens |
| Election.BridgeRootMsgIdempotent | src/BridgePort.cpp:118-129 | handling the same pair twice on a port is the same as handling it once |
| Election.ZeroPairAcceptsNothing | src/BridgePort.h:15-18 | a port still remembering its initial (0, 0) accepts no advertisement at all |
| Election.Advertised | src/BridgePort.cpp:70-85 | the advertisement branch keeps the shape of the bridge |
| Election.BridgeFrame | src/BridgePort.cpp:40-86 | bridgeMessageReceived keeps the shape of the bridge |
| Election.ClientFacingIgnoresBridgeFrames | src/BridgePort.cpp:43 | a 'B' frame arriving on a client-facing port changes nothing |
| Election.OpenRequestOnlyOpens | src/BridgePort.cpp:55-60 | an open request marks the port opened and changes nothing else |
| Election.AdvertisementReceived | src/BridgePort.cpp:71-85 | an advertisement on a WORKING bridge is initialize then bridgeRootMsg; on a LINKING one it is bridgeRootMsg alone |
| Election.ClientFrame | src/BridgePort.cpp:88-94 | clientMessageReceived changes only links: the ports, their kinds and their remembered pairs stay as they were |
| Election.ClientFrameFloods | src/BridgePort.cpp:88-94 | when its port is OPENED and the bridge WORKING, a client frame is sent unforced on every other port, client- or bridge-facing, and the belief, state, timer and remembered pairs are kept; otherwise nothing changes; its own port is untouched |
| Election.Dispatch | src/BridgePort.cpp:22-35 | handling one frame keeps the shape of the bridge |
| Election.Handle | src/BridgePort.cpp:20-37 | handling a chunk's frames keeps the shape of the bridge |
| Election.HandleSnoc | src/BridgePort.cpp:20-37 | handling one more frame after a run of frames is dispatching it to the engine those frames produced |
| Election.ReassemblingStart | src/BridgePort.cpp:9-10 | before the first pass no frame is taken, the engine is the initial one and the buffer is the whole chunk |
| Election.ReassemblingStep | src/BridgePort.cpp:21-36 | one pass of gotMsg's scan keeps the loop invariant; a pass that finds a frame shortens the buffer by at least 10 bytes; one that finds none leaves the buffer unchanged |
| Election.ReassemblingDone | src/BridgePort.cpp:20-37 | when the scan finds no more frames, the engine has handled exactly the extracted frames and the buffer holds the remainder |
| Election.Disconnected | src/Bridge.cpp:292-299 | disconnected keeps the shape of the bridge |
| Election.DisconnectedRestartsIff | src/Bridge.cpp:292-299 | when the port's pair is exactly the belief the engine is LINKING with the timer armed, its belief reset to (own id, 0) from WORKING and kept from LINKING; otherwise nothing changes |
| Election.BridgePortDisconnected | src/BridgePort.cpp:112-116 | a bridge-facing port's disconnect cleans up its link and then, when its pair is the belief, reinitializes: LINKING, timer armed, belief reset from WORKING and kept from LINKING; otherwise only the cleaned-up link changes |
| Election.PortConnected | src/BridgePort.cpp:96-110 | a connect event keeps the shape of the bridge |
| Election.PortDisconnected | src/BridgePort.cpp:112-116 | a disconnect event keeps the shape of the bridge |
| Election.ConnectCallbacks | src/BridgePort.cpp:96-109 | on a connect that counts (no close or kill pending) a client-facing port ends up OPENED and nothing else happens, while a bridge-facing port restarts the election (LINKING) |
| Election.ClientPortDisconnected | src/BridgePort.cpp:112-114 | a client-facing port's disconnect, with or without a close or kill pending, only cleans up its own link (not connected, NOT_CONNECTED, everything else kept) |
| Election.Least | src/Node.h:32 | the smallest port id of a non-empty set: the next one `std::map` iteration visits |
| Election.OpenedForeignKeepsChoice | src/Bridge.cpp:305-320 | the first loop of timeout changes only links, so the second loop sees the same root ports |
| Election.TimedOut | src/Bridge.cpp:301-336 | timeout keeps the ports, kinds and remembered pairs |
| Election.TimedOutPorts | src/Bridge.cpp:301-336 | client-facing ports are untouched; bridge-facing ports with another root id are opened; of the ports matching the belief, only the chosen one is opened and force-sent an open request; ports with the root id but another path are untouched; the bridge ends WORKING with the belief unchanged |
| Election.TimedOutOpensOneRootPort | src/Bridge.cpp:314-332 | a root port is opened exactly when the root is another bridge and a port matches the belief; it is the lowest-id such port and the only root port that changes |
| Election.NewEngineInv | src/Bridge.cpp:7-18 | a new bridge believes in itself with path 0, is WORKING and satisfies the invariant |
| Election.AddRemoveInv | src/Node.cpp:4-31 | adding or removing a port keeps the invariant |
| Election.InitializedInv | src/Bridge.cpp:220-257 | initialize keeps the invariant |
| Election.SentToOthersInv | src/Bridge.cpp:259-269 | flooding keeps the invariant |
| Election.RootMsgInv | src/Bridge.cpp:271-290 | rootMsg keeps the invariant |
| Election.BridgeRootMsgInv | src/BridgePort.cpp:118-129 | bridgeRootMsg keeps the invariant |
| Election.DispatchInv | src/BridgePort.cpp:40-94 | handling any frame keeps the invariant |
| Election.HandleInv | src/BridgePort.cpp:5-38 | handling every frame of a chunk keeps the invariant |
| Election.TimedOutInv | src/Bridge.cpp:301-336 | timeout keeps the invariant |
| Election.ConnectDisconnectInv | src/BridgePort.cpp:96-116 | connect and disconnect events keep the invariant |
| Bridges.BridgePort.constructor | src/BridgePort.h:15-18 | a new bridge port has a fresh link with that id, the given kind, the pair (0, 0) and an empty buffer |
| Bridges.BridgePort.SetRootID | src/BridgePort.h:28-30 | setRootID changes the remembered root id and nothing else |
| Bridges.BridgePort.SetRootPath | src/BridgePort.h:35-37 | setRootPath changes the remembered path and nothing else |
| Bridges.BridgePort.Reinitialize | src/Bridge.cpp:239-250 | the body of initialize's loop moves the port exactly as InitializedPort says |
| Bridges.BridgePort.Adopt | src/BridgePort.cpp:120-123 | the comparison is the strict root order, and a better pair replaces the remembered one |
| Bridges.Bridge.constructor | src/Bridge.cpp:7-18 | a new bridge has no ports, believes in itself with path 0 and is WORKING |
| Bridges.Bridge.BuffersArePerPort | src/BridgePort.h:50 | two different ports of a bridge never share a receive buffer or a connection |
| Bridges.Bridge.CreatePort | src/Node.cpp:4-17 | a new port of the given kind is added under its id exactly when the id is free, with an empty buffer; the protocol state moves as AddedPort says |
| Bridges.Bridge.RemovePort | src/Node.cpp:19-31 | the port with that id is dropped, if present |
| Bridges.Bridge.Initialize | src/Bridge.cpp:220-257 | the new protocol state is Initialized of the old one |
| Bridges.Bridge.ReinitializePorts | src/Bridge.cpp:238-251 | the loop visits every port once and leaves every port as InitializedPort says |
| Bridges.Bridge.SendToOtherPorts | src/Bridge.cpp:259-269 | the loop leaves every port as FloodedPort says, and the protocol state is SentToOthers of the old one |
| Bridges.Bridge.SendAt | src/Bridge.cpp:263-267 | one iteration changes only port k, as FloodedPort says |
| Bridges.Bridge.RootMsg | src/Bridge.cpp:271-290 | the new protocol state is RootMsg of the old one |
| Bridges.Bridge.BridgeRootMsg | src/BridgePort.cpp:118-129 | the new protocol state is BridgeRootMsg of the old one |
| Bridges.Bridge.AdoptAt | src/BridgePort.cpp:120-124 | only port k's pair changes, and only when the new pair is strictly better |
| Bridges.Bridge.BridgeMessageReceived | src/BridgePort.cpp:40-86 | the new protocol state is BridgeFrame of the old one |
| Bridges.Bridge.Advertisement | src/BridgePort.cpp:70-85 | the new protocol state is Advertised of the old one |
| Bridges.Bridge.OpenAt | src/BridgePort.cpp:55-56 | only port k's link changes, and it is marked opened |
| Bridges.Bridge.ClientMessageReceived | src/BridgePort.cpp:88-94 | the new protocol state is ClientFrame of the old one |
| Bridges.Bridge.DispatchFrame | src/BridgePort.cpp:22-35 | 'B' frames go to the bridge handler and all others to the client handler: the new state is Dispatch of the old one |
| Bridges.Bridge.GotMsg | src/BridgePort.cpp:5-38 | after appending the chunk, the protocol state is the old one with exactly the extracted frames handled in order, and the buffer holds the remainder |
| Bridges.Bridge.Drain | src/BridgePort.cpp:19-37 | the outer loop ends, having handled exactly the extracted frames of the whole buffer and left its remainder |
| Bridges.Bridge.Pass | src/BridgePort.cpp:20-36 | one pass keeps the loop invariant and either shortens the buffer or ends the loop with no frame left |
| Bridges.Bridge.ExtractFrame | src/BridgePort.cpp:21-36 | the first frame, if any, is dispatched and cut out with everything before it; otherwise nothing changes |
| Bridges.Bridge.Disconnected | src/Bridge.cpp:292-299 | the new protocol state is Disconnected of the old one |
| Bridges.Bridge.PortConnected | src/BridgePort.cpp:96-110 | the new protocol state is PortConnected of the old one |
| Bridges.Bridge.ConnectAt | src/Port.cpp:263-268 | the end of a connection attempt on port k, which counts unless close or kill was requested |
| Bridges.Bridge.PortDisconnected | src/BridgePort.cpp:112-116 | the new protocol state is PortDisconnected of the old one |
| Bridges.Bridge.CleanupAt | src/Port.cpp:285-289 | only port k's link changes, and it is cleaned up |
| Bridges.Bridge.Timeout | src/Bridge.cpp:301-336 | the new protocol state is TimedOut of the old one |
| Bridges.Bridge.OpenForeignPorts | src/Bridge.cpp:305-312 | the first loop marks opened every bridge-facing port whose root id differs from the belief, and nothing else |
| Bridges.Bridge.OpenForeignAt | src/Bridge.cpp:307-311 | one iteration of the first loop changes only port k |
| Bridges.Bridge.OpenRootPort | src/Bridge.cpp:314-332 | the second loop opens and sends an open request to the chosen root port only, and stops there; with no chosen port nothing changes |
| Bridges.Bridge.OpenRootAt | src/Bridge.cpp:322-328 | only port k's link changes: it is marked opened and force-sent an open request |
| Clients.Delivered | src/ClientPort.cpp:19-29 | a run of frames yields at most one note per frame |
| Clients.DeliveredSnoc | src/ClientPort.cpp:19-29 | the notes of one more frame are appended after those of the frames before it |
| Clients.DeliveredAreAddressed | src/ClientPort.cpp:40-50 | no note is recorded if and only if no frame is addressed to the client |
| Clients.DeliveredConcat | src/ClientPort.cpp:19-29 | the notes of two runs of frames are the notes of the first followed by those of the second, so order is kept |
| Clients.DeliveredNotesAreAddressed | src/ClientPort.cpp:40-50 | every recorded note is the (letter, source) of some frame addressed to the client |
| Clients.AddressedFramesAreDelivered | src/ClientPort.cpp:40-50 | the (letter, source) of every frame addressed to the client is recorded |
| Clients.LetterSplit | src/ClientPort.cpp:19-29 | a whole letter frame on an empty buffer is extracted as exactly one frame, leaving nothing |
| Clients.LetterDelivered | src/ClientPort.cpp:32-51 | a letter sent from `source` to `dest` is recorded by client `id` as (letter, source) exactly when dest == id, and nothing is left in the buffer |
| Clients.ReadingStart | src/ClientPort.cpp:9-10 | before the first pass no frame is taken and no note is added |
| Clients.ReadingStep | src/ClientPort.cpp:21-28 | one pass of the client scan keeps the loop invariant; a pass that finds a frame shortens the buffer by at least 10 bytes; one that finds none leaves the buffer unchanged |
| Clients.ReadingDone | src/ClientPort.cpp:19-29 | when the scan finds no more frames, the notes added are exactly those of the extracted frames and the buffer is the remainder |
| Clients.ClientPort.constructor | src/Client.cpp:36 | a new client port has id 0, a fresh unconnected link, an empty buffer and no notes |
| Clients.ClientPort.MessageReceived | src/ClientPort.cpp:32-51 | a frame addressed to the node adds the note (letter, source); any other frame adds none |
| Clients.ClientPort.GotMsg | src/ClientPort.cpp:4-30 | after appending the chunk, the notes of exactly the extracted 'C' frames are added in order, and the buffer holds the remainder |
| Clients.ClientPort.ExtractLetter | src/ClientPort.cpp:21-28 | the first 'C' frame, if any, is handled and cut out with everything before it; otherwise nothing changes |
| Clients.ClientPort.Connected | src/ClientPort.cpp:53-56 | a connection that counts leaves the link connected and OPENED; otherwise nothing changes |
| Clients.ClientPort.Disconnected | src/Port.cpp:271-290 | the link is cleaned up; a client port has no disconnect handler of its own |
| Clients.Client.constructor | src/Client.cpp:6-14 | a new client has an empty table and no port |
| Clients.Client.AddPort | src/Client.cpp:16-20 | the table takes the port exactly when its id is free, and the client's port reference is set only then |
| Clients.Client.RemovePort | src/Client.cpp:22-26 | the entry is erased, and the port reference is cleared exactly when the table had it |
| Clients.Client.CreatePort | src/Client.cpp:35-45 | a new port with id 0 and the given role is taken exactly when the client has no port yet; otherwise nothing changes |
| Clients.Client.Send | src/Client.cpp:83-98 | the letter is handed to the port as a forced 'C' frame (own id, dest, letter) |
| Clients.Client.Close | src/Client.cpp:48-56 | close with a delay requests a temporary shutdown of the port, if the client has one |
| Clients.Client.Kill | src/Client.cpp:59-62 | kill requests a permanent shutdown of the port, if the client has one |

## Left out

- Sockets, the threads that run each port, signals and `select`. Their outcomes
  arrive as method calls: `ConnectSucceeded`, `Cleanup`, `GotMsg` with the
  received chunk, and `SendOutcome` with the result of `send`. The
  actor's run loop (src/Port.cpp:31-104, 131-262, 292-337) is not part of this
  model.
- Ports.Port.SendOutcome is a separate method. A failed send is not fed back into
  the bridge handlers, which treat every send as `SendMessage` alone.
- The election timer thread and the lock around the bridge
  (src/Bridge.cpp:40-91). The timer is the flag `armed`:
  - `initialize` sets it;
  - `Timeout` is called when it fires and clears it.

  Interleavings of handlers running on different threads are not modelled;
  every handler runs to completion.
- Command parsing (src/Bridge.cpp:122-218, src/Client.cpp:28-99), including
  the truncation of `stoul` to 32 bits and the setting of IP addresses and TCP
  port numbers. The parsed values are method parameters. The bridge's close
  and kill commands are the port methods `RequestClose` and `RequestKill`.
- The display (Display.cpp, titles, port labels and raw-message logs). What a
  client shows for a received letter is a `Note` in `received`.
- Main.cpp is not part of this model.
- Nodes.Node.RemovePort: killing, joining and deleting the port thread, and
  deleting a port that `addPort` rejected, are not modelled.
- A BridgePort's handlers are methods of Bridges.Bridge that take the port's
  id. The sender in `sendToOtherPorts` is compared by id rather than by
  address, which is the same thing because every port is filed under its own id.
- Clients.Client.AddPort: the method keeps the source's contract (the port reference
  follows the table), but by itself it does not re-establish `Valid()`. Only
  `CreatePort`, which always uses id 0, is proved to keep it.
- Clients.ClientPort.MessageReceived: the letter is any byte. The source's
  `send` command only produces alphabetic letters.
- A kill issued before a port's thread has started is lost in the source,
  because `run` clears the flag (src/Port.cpp:46). That startup race is not
  modelled.
