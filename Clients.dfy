/** The client side: a node with at most one port, through which it sends
    letters to other clients and on which it records the letters addressed
    to it. Every client port is created with id 0, so the node's table can
    hold one port only. */
module Clients {
  import opened Wire
  import opened Framing
  import opened Ports
  import opened Nodes

  /** A line the client shows for a letter addressed to it: the letter and
      the id of the client that sent it. */
  datatype Note = Got(letter: byte, source: u32)

  /** ClientPort::messageReceived: a letter is recorded exactly when its
      destination id is the node's own id. */
  function Received(id: u32, frame: seq<byte>): (r: seq<Note>)
    requires |frame| == FrameSize
  {
    var f := LetterOf(frame);
    if f.dest == id then [Got(f.letter, f.source)] else []
  }

  /** The notes of a sequence of frames, handled in order. */
  function Delivered(id: u32, frames: seq<seq<byte>>): (r: seq<Note>)
    requires forall i :: 0 <= i < |frames| ==> |frames[i]| == FrameSize
    ensures |r| <= |frames|
    decreases |frames|
  {
    if frames == [] then [] else Received(id, frames[0]) + Delivered(id, frames[1..])
  }

  /** Handling one more frame after a sequence of frames. */
  lemma {:induction false} DeliveredSnoc(id: u32, frames: seq<seq<byte>>, frame: seq<byte>)
    requires forall i :: 0 <= i < |frames| ==> |frames[i]| == FrameSize
    requires |frame| == FrameSize
    ensures Delivered(id, frames + [frame]) == Delivered(id, frames) + Received(id, frame)
    decreases |frames|
  {
    FramesSnoc(frames, frame);
    if frames == [] {
      assert [] + [frame] == [frame];
      assert Delivered(id, [frame]) == Received(id, frame) + Delivered(id, []);
    } else {
      assert (frames + [frame])[1..] == frames[1..] + [frame];
      DeliveredSnoc(id, frames[1..], frame);
    }
  }

  /** Nothing is recorded exactly when no frame is addressed to id. */
  lemma {:induction false} DeliveredAreAddressed(id: u32, frames: seq<seq<byte>>)
    requires forall i :: 0 <= i < |frames| ==> |frames[i]| == FrameSize
    ensures (forall i :: 0 <= i < |frames| ==> LetterOf(frames[i]).dest != id) <==> Delivered(id, frames) == []
    decreases |frames|
  {
    if frames != [] {
      DeliveredAreAddressed(id, frames[1..]);
      assert forall i :: 1 <= i < |frames| ==> frames[i] == frames[1..][i - 1];
    }
  }

  /** Order: the notes of two runs of frames, one after the other, are
      those of the first run followed by those of the second. */
  lemma {:induction false} DeliveredConcat(id: u32, a: seq<seq<byte>>, b: seq<seq<byte>>)
    requires forall i :: 0 <= i < |a| ==> |a[i]| == FrameSize
    requires forall i :: 0 <= i < |b| ==> |b[i]| == FrameSize
    ensures forall i :: 0 <= i < |a + b| ==> |(a + b)[i]| == FrameSize
    ensures Delivered(id, a + b) == Delivered(id, a) + Delivered(id, b)
    decreases |a|
  {
    assert forall i :: 0 <= i < |a + b| ==> (a + b)[i] == if i < |a| then a[i] else b[i - |a|];
    if a == [] {
      assert a + b == b;
    } else {
      assert (a + b)[0] == a[0];
      assert (a + b)[1..] == a[1..] + b;
      DeliveredConcat(id, a[1..], b);
      ConcatAssoc(Received(id, a[0]), Delivered(id, a[1..]), Delivered(id, b));
    }
  }

  /** Every note recorded is the letter and source of some frame addressed
      to id. */
  lemma {:induction false} DeliveredNotesAreAddressed(id: u32, frames: seq<seq<byte>>)
    requires forall i :: 0 <= i < |frames| ==> |frames[i]| == FrameSize
    ensures forall n :: n in Delivered(id, frames) ==>
      exists i :: 0 <= i < |frames| && LetterOf(frames[i]).dest == id &&
                  n == Got(LetterOf(frames[i]).letter, LetterOf(frames[i]).source)
    decreases |frames|
  {
    if frames != [] {
      DeliveredNotesAreAddressed(id, frames[1..]);
      forall n | n in Delivered(id, frames)
        ensures exists i :: 0 <= i < |frames| && LetterOf(frames[i]).dest == id &&
                            n == Got(LetterOf(frames[i]).letter, LetterOf(frames[i]).source)
      {
        if n in Received(id, frames[0]) {
          assert LetterOf(frames[0]).dest == id;
        } else {
          assert n in Delivered(id, frames[1..]);
          var j :| 0 <= j < |frames[1..]| && LetterOf(frames[1..][j]).dest == id &&
                   n == Got(LetterOf(frames[1..][j]).letter, LetterOf(frames[1..][j]).source);
          assert frames[1..][j] == frames[j + 1];
        }
      }
    }
  }

  /** Every frame addressed to id has its letter and source recorded. */
  lemma {:induction false} AddressedFramesAreDelivered(id: u32, frames: seq<seq<byte>>)
    requires forall i :: 0 <= i < |frames| ==> |frames[i]| == FrameSize
    ensures forall i :: 0 <= i < |frames| && LetterOf(frames[i]).dest == id ==>
      Got(LetterOf(frames[i]).letter, LetterOf(frames[i]).source) in Delivered(id, frames)
    decreases |frames|
  {
    if frames != [] {
      AddressedFramesAreDelivered(id, frames[1..]);
      forall i | 0 <= i < |frames| && LetterOf(frames[i]).dest == id
        ensures Got(LetterOf(frames[i]).letter, LetterOf(frames[i]).source) in Delivered(id, frames)
      {
        if i > 0 {
          assert frames[i] == frames[1..][i - 1];
        }
      }
    }
  }

  /** A letter frame that arrives whole on an empty buffer is taken out
      entirely. */
  lemma LetterSplit(source: u32, dest: u32, letter: byte)
    ensures var f := LetterFrame(source, dest, letter); Split(f, ClientTags) == Extraction([f], [])
  {
    var f := LetterFrame(source, dest, letter);
    assert FirstFrameFrom(f, ClientTags, 0) == Some(0);
    assert f[0..FrameSize] == f && f[FrameSize..] == [];
    assert NextFrame(f, ClientTags) == Some((f, []));
    SplitStep(f, ClientTags);
    SplitNoFrame([], ClientTags);
  }

  /** Delivery end to end: the frame of a letter, arriving whole on an empty
      buffer, is recorded as the sender's letter and id exactly when it is
      addressed to the receiving client, and nothing is left over. */
  lemma LetterDelivered(source: u32, dest: u32, letter: byte, id: u32)
    ensures var x := Split(LetterFrame(source, dest, letter), ClientTags);
      && x.rest == []
      && Delivered(id, x.frames) == if dest == id then [Got(letter, source)] else []
  {
    var f := LetterFrame(source, dest, letter);
    LetterSplit(source, dest, letter);
    assert Delivered(id, [f]) == Received(id, f) + Delivered(id, []);
  }

  /** The invariant of the client port's gotMsg loop: the notes are those
      there were before the chunk, followed by those of the frames taken so
      far from whole, and buf holds the rest. */
  ghost predicate Reading(id: u32, whole: seq<byte>, done: seq<seq<byte>>, notes0: seq<Note>, notes: seq<Note>, buf: seq<byte>)
  {
    && (forall i :: 0 <= i < |done| ==> |done[i]| == FrameSize)
    && Consumed(whole, done, buf, ClientTags)
    && notes == notes0 + Delivered(id, done)
  }

  /** One pass of the client port's scan, from notes and buf to notes1 and
      after: the first 'C' frame, if any, is handled and cut out together
      with everything before it; otherwise nothing changes. */
  ghost predicate LetterPass(id: u32, notes: seq<Note>, buf: seq<byte>, notes1: seq<Note>, after: seq<byte>)
  {
    match NextFrame(buf, ClientTags)
    case None => notes1 == notes && after == buf
    case Some(next) => notes1 == notes + Received(id, next.0) && after == next.1
  }

  /** A pass keeps the invariant; a pass that finds a frame shortens the
      buffer, and one that finds none leaves no frame. */
  lemma ReadingStep(id: u32, whole: seq<byte>, done: seq<seq<byte>>, notes0: seq<Note>, notes: seq<Note>, buf: seq<byte>, notes1: seq<Note>, after: seq<byte>)
    requires Reading(id, whole, done, notes0, notes, buf) && LetterPass(id, notes, buf, notes1, after)
    ensures Reading(id, whole, Taken(done, buf, ClientTags), notes0, notes1, after)
    ensures NextFrame(buf, ClientTags).Some? ==> |after| + FrameSize <= |buf|
    ensures NextFrame(buf, ClientTags).None? ==> NoFrame(after, ClientTags) && after == buf
  {
    if NextFrame(buf, ClientTags).Some? {
      var frame := NextFrame(buf, ClientTags).value.0;
      ConsumedStep(whole, done, buf, ClientTags);
      DeliveredSnoc(id, done, frame);
      FramesSnoc(done, frame);
      ConcatAssoc(notes0, Delivered(id, done), Received(id, frame));
    }
  }

  /** When the scan finds nothing more, the notes and buf are the final ones. */
  lemma ReadingDone(id: u32, whole: seq<byte>, done: seq<seq<byte>>, notes0: seq<Note>, notes: seq<Note>, buf: seq<byte>)
    requires Reading(id, whole, done, notes0, notes, buf) && NoFrame(buf, ClientTags)
    ensures notes == notes0 + Delivered(id, Split(whole, ClientTags).frames) && buf == Split(whole, ClientTags).rest
  {
    ConsumedDone(whole, done, buf, ClientTags);
  }

  /** Before the first pass nothing is taken. */
  lemma ReadingStart(id: u32, whole: seq<byte>, notes0: seq<Note>)
    ensures Reading(id, whole, [], notes0, notes0, whole)
  {
    assert [] + Split(whole, ClientTags).frames == Split(whole, ClientTags).frames;
    assert notes0 + Delivered(id, []) == notes0;
  }

  /** A client port: the connection, the id of the node it belongs to, the
      bytes not yet consumed and the letters recorded so far. */
  class ClientPort {
    const link: Port
    const nodeId: u32
    var buffer: seq<byte>
    var received: seq<Note>

    constructor (role: Role, nodeId: u32)
      ensures fresh(link) && link.id == 0 && link.role == role && link.View() == NewLink()
      ensures this.nodeId == nodeId && buffer == [] && received == []
    {
      link := new Port(0, role);
      this.nodeId := nodeId;
      buffer := [];
      received := [];
    }

    /** ClientPort::messageReceived. */
    method MessageReceived(frame: seq<byte>)
      requires |frame| == FrameSize
      modifies this
      ensures received == old(received) + Received(nodeId, frame) && buffer == old(buffer)
    {
      var f := LetterOf(frame);
      if f.dest == nodeId {
        received := received + [Got(f.letter, f.source)];
      }
    }

    /** ClientPort::gotMsg: the chunk is appended to the buffer and every
        'C' frame the extraction finds is handled in order; 'B' bytes are
        skipped as junk. */
    method GotMsg(msg: seq<byte>)
      modifies this
      ensures var x := Split(old(buffer) + msg, ClientTags);
        buffer == x.rest && received == old(received) + Delivered(nodeId, x.frames)
    {
      buffer := buffer + msg;
      ghost var whole := buffer;
      ghost var done: seq<seq<byte>> := [];
      ReadingStart(nodeId, whole, received);
      var finished := false;
      while !finished
        invariant Reading(nodeId, whole, done, old(received), received, buffer)
        invariant finished ==> NoFrame(buffer, ClientTags)
        decreases |buffer| + if finished then 0 else 1
      {
        ghost var before := buffer;
        ghost var notes := received;
        var found := ExtractLetter();
        finished := !found;
        ReadingStep(nodeId, whole, done, old(received), notes, before, received, buffer);
        done := Taken(done, before, ClientTags);
      }
      ReadingDone(nodeId, whole, done, old(received), received, buffer);
    }

    /** One pass of the scan: the first 'C' frame in the buffer, if any, is
        handled and cut out together with everything before it. */
    method ExtractLetter() returns (found: bool)
      modifies this
      ensures found == NextFrame(old(buffer), ClientTags).Some?
      ensures LetterPass(nodeId, old(received), old(buffer), received, buffer)
    {
      var at := FindFrame(buffer, ClientTags);
      if at.None? {
        return false;
      }
      var i := at.value;
      var rest := buffer[i + FrameSize..];
      MessageReceived(buffer[i..i + FrameSize]);
      buffer := rest;
      return true;
    }

    /** Port's end of a connection attempt, then ClientPort::connected: a
        client port opens its link as soon as it is connected. */
    method Connected() returns (up: bool)
      modifies link
      ensures up == (!old(link.closeRequested) && !old(link.killRequested))
      ensures link.View() == if up then MarkedOpened(Established(old(link.View()))) else old(link.View())
    {
      up := link.ConnectSucceeded();
      if up {
        link.MarkOpened();
      }
    }

    /** Port cleanup; a client port has no disconnected() handler of its own. */
    method Disconnected()
      modifies link
      ensures link.View() == CleanedUp(old(link.View()))
    {
      link.Cleanup();
    }
  }

  /** A client: the node's port table and the reference to its one port. */
  class Client {
    const node: Node<ClientPort>
    var port: ClientPort?

    /** The port reference is set exactly while the table holds a port, and then
        it is that port, filed under id 0 and belonging to this node. */
    ghost predicate Valid()
      reads this, node, port
    {
      && node.ports == (if port == null then map[] else map[0 := port])
      && (port != null ==> port.link.id == 0 && port.nodeId == node.id)
    }

    /** The connection of the client's port, if it has one. */
    ghost function Link(): set<Port>
      reads this, port
    {
      if port == null then {} else {port.link}
    }

    constructor (id: u32)
      ensures fresh(node) && node.id == id && port == null && Valid()
    {
      node := new Node(id);
      port := null;
    }

    /** Client::addPort: the port reference follows the table, and is set only when
        the table takes the port. */
    method AddPort(p: ClientPort) returns (ok: bool)
      modifies node, this
      ensures ok == (p.link.id !in old(node.ports))
      ensures node.ports == if ok then old(node.ports)[p.link.id := p] else old(node.ports)
      ensures port == if ok then p else old(port)
    {
      ok := node.AddPort(p.link.id, p);
      if ok {
        port := p;
      }
    }

    /** Client::removePort: the port reference is cleared only when the table had a
        port under that id. */
    method RemovePort(key: nat) returns (ok: bool)
      requires Valid()
      modifies node, this
      ensures ok == (key in old(node.ports))
      ensures node.ports == old(node.ports) - {key}
      ensures port == if ok then null else old(port)
      ensures Valid()
    {
      ok := node.RemovePort(key);
      if ok {
        port := null;
      }
    }

    /** The "port" and "conn" commands: a new port with id 0 and the given
        role. It is taken only when the client has no port yet. */
    method CreatePort(role: Role) returns (ok: bool)
      requires Valid()
      modifies node, this
      ensures ok == (old(port) == null)
      ensures ok ==> fresh(port) && fresh(port.link) && port.link.role == role && port.link.View() == NewLink()
      ensures ok ==> port.buffer == [] && port.received == []
      ensures !ok ==> port == old(port) && node.ports == old(node.ports)
      ensures Valid()
    {
      var p := new ClientPort(role, node.id);
      ok := AddPort(p);
    }

    /** The "send" command: a forced 'C' frame from this client to dest,
        handed to the port if there is one. */
    method Send(dest: u32, letter: byte)
      requires Valid()
      modifies Link()
      ensures port != null ==> port.link.View() == Sent(old(port.link.View()), LetterFrame(node.id, dest, letter), true)
    {
      if port != null {
        port.link.SendMessage(LetterFrame(node.id, dest, letter), true);
      }
    }

    /** The "close" command: a temporary shutdown of the port, if any. */
    method Close(seconds: nat)
      requires Valid()
      modifies Link()
      ensures port != null ==> port.link.View() == old(port.link.View()).(closeRequested := true, reconnectDelay := seconds)
    {
      if port != null {
        port.link.RequestClose(seconds);
      }
    }

    /** The "kill" command: a permanent shutdown of the port, if any. */
    method Kill()
      requires Valid()
      modifies Link()
      ensures port != null ==> port.link.View() == old(port.link.View()).(killRequested := true)
    {
      if port != null {
        port.link.RequestKill();
      }
    }
  }
}
