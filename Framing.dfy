/** Reassembly of 10-byte frames from the byte stream of one connection.
    Both port kinds keep a buffer of bytes not yet consumed, scan it for the
    first tag byte that has a whole frame after it, hand that frame on, and
    drop everything up to and including it. A bridge port accepts 'B' and
    'C' tags, a client port only 'C'. */
module Framing {
  import opened Wire

  datatype Option<T> = None | Some(value: T)

  /** The tags a bridge port resynchronises on. */
  const BridgeTags: set<byte> := {TagBridge, TagClient}
  /** The tags a client port resynchronises on ('B' bytes are junk there). */
  const ClientTags: set<byte> := {TagClient}

  /** A tag byte at i with a whole frame from i to the end of buf. */
  predicate StartsFrame(buf: seq<byte>, tags: set<byte>, i: nat)
  {
    i + FrameSize <= |buf| && buf[i] in tags
  }

  /** No tag byte of buf has FrameSize or more bytes from it to the end. */
  predicate NoFrame(buf: seq<byte>, tags: set<byte>)
  {
    forall j :: 0 <= j < |buf| && buf[j] in tags ==> j + FrameSize > |buf|
  }

  /** The scan of the inner for loop, from index i on. */
  function FirstFrameFrom(buf: seq<byte>, tags: set<byte>, i: nat): (r: Option<nat>)
    requires i <= |buf|
    ensures r.Some? ==> i <= r.value && StartsFrame(buf, tags, r.value)
    ensures r.Some? ==> forall j :: i <= j < r.value ==> buf[j] !in tags
    ensures r.None? ==> forall j :: i <= j < |buf| && buf[j] in tags ==> j + FrameSize > |buf|
    decreases |buf| - i
  {
    if i == |buf| then None
    else if buf[i] in tags && i + FrameSize <= |buf| then Some(i)
    else FirstFrameFrom(buf, tags, i + 1)
  }

  /** Where the next frame starts: the first tag byte of the buffer, provided
      a whole frame follows it; otherwise there is no frame at all. */
  function FirstFrame(buf: seq<byte>, tags: set<byte>): (r: Option<nat>)
    ensures r.Some? ==> StartsFrame(buf, tags, r.value)
    ensures r.Some? ==> forall j :: 0 <= j < r.value ==> buf[j] !in tags
    ensures r.None? ==> NoFrame(buf, tags)
  {
    FirstFrameFrom(buf, tags, 0)
  }

  /** The inner `for` scan of gotMsg: returns the index of the frame the
      source would dispatch next, or None when its outer loop finishes. */
  method FindFrame(buf: seq<byte>, tags: set<byte>) returns (found: Option<nat>)
    ensures found == FirstFrame(buf, tags)
  {
    var i := 0;
    while i < |buf|
      invariant 0 <= i <= |buf|
      invariant FirstFrameFrom(buf, tags, i) == FirstFrame(buf, tags)
    {
      if buf[i] in tags && i + FrameSize <= |buf| {
        return Some(i);
      }
      i := i + 1;
    }
    return None;
  }

  /** One pass of gotMsg's scan: the first frame and the bytes after it. */
  function NextFrame(buf: seq<byte>, tags: set<byte>): (r: Option<(seq<byte>, seq<byte>)>)
    ensures r.None? <==> FirstFrame(buf, tags).None?
    ensures r.None? ==> NoFrame(buf, tags)
    ensures r.Some? ==> |r.value.0| == FrameSize && r.value.0[0] in tags && |r.value.1| + FrameSize <= |buf|
  {
    match FirstFrame(buf, tags)
    case None => None
    case Some(i) => Some((buf[i..i + FrameSize], buf[i + FrameSize..]))
  }

  /** The frames one gotMsg call dispatches, in order, and the bytes it
      leaves in the buffer. */
  datatype Extraction = Extraction(frames: seq<seq<byte>>, rest: seq<byte>)

  /** Repeated extraction of the first frame, as the outer `while` of gotMsg
      does it: the frame and everything before it leave the buffer. */
  function Split(buf: seq<byte>, tags: set<byte>): (r: Extraction)
    ensures forall k :: 0 <= k < |r.frames| ==> |r.frames[k]| == FrameSize && r.frames[k][0] in tags
    ensures |r.rest| <= |buf| && r.rest == buf[|buf| - |r.rest|..]
    ensures NoFrame(r.rest, tags)
    ensures |r.rest| + FrameSize * |r.frames| <= |buf|
    decreases |buf|
  {
    match FirstFrame(buf, tags)
    case None =>
      assert buf[0..] == buf;
      Extraction([], buf)
    case Some(i) =>
      var tail := Split(buf[i + FrameSize..], tags);
      SplitCons(buf, tags, i, tail);
      Extraction([buf[i..i + FrameSize]] + tail.frames, tail.rest)
  }

  /** The frame at i put in front of the extraction of the bytes after it
      is an extraction of the whole buffer. */
  lemma SplitCons(buf: seq<byte>, tags: set<byte>, i: nat, tail: Extraction)
    requires StartsFrame(buf, tags, i)
    requires forall k :: 0 <= k < |tail.frames| ==> |tail.frames[k]| == FrameSize && tail.frames[k][0] in tags
    requires var after := buf[i + FrameSize..];
      |tail.rest| <= |after| && tail.rest == after[|after| - |tail.rest|..]
    requires |tail.rest| + FrameSize * |tail.frames| <= |buf| - i - FrameSize
    ensures var r := Extraction([buf[i..i + FrameSize]] + tail.frames, tail.rest);
      && (forall k :: 0 <= k < |r.frames| ==> |r.frames[k]| == FrameSize && r.frames[k][0] in tags)
      && |r.rest| <= |buf| && r.rest == buf[|buf| - |r.rest|..]
      && |r.rest| + FrameSize * |r.frames| <= |buf|
  {
    var frame := buf[i..i + FrameSize];
    var after := buf[i + FrameSize..];
    assert after[|after| - |tail.rest|..] == buf[|buf| - |tail.rest|..];
    forall k | 0 <= k < |[frame] + tail.frames|
      ensures |([frame] + tail.frames)[k]| == FrameSize && ([frame] + tail.frames)[k][0] in tags
    {
      if k > 0 {
        assert ([frame] + tail.frames)[k] == tail.frames[k - 1];
      }
    }
  }

  /** A buffer that holds no frame is left alone. */
  lemma SplitNoFrame(buf: seq<byte>, tags: set<byte>)
    requires NoFrame(buf, tags)
    ensures Split(buf, tags) == Extraction([], buf)
  {
  }

  /** One step of the outer loop: the first frame is dispatched first, and
      the rest of the work is the same extraction on the bytes after it. */
  lemma SplitStep(buf: seq<byte>, tags: set<byte>)
    requires NextFrame(buf, tags).Some?
    ensures var (frame, after) := NextFrame(buf, tags).value;
      && Split(buf, tags).frames == [frame] + Split(after, tags).frames
      && Split(buf, tags).rest == Split(after, tags).rest
  {
  }

  /** The invariant of gotMsg's outer loop on the buffer: the frames taken
      so far, followed by those still in buf, are the whole extraction, and
      the same bytes are left over. */
  ghost predicate Consumed(whole: seq<byte>, done: seq<seq<byte>>, buf: seq<byte>, tags: set<byte>)
  {
    && Split(whole, tags).frames == done + Split(buf, tags).frames
    && Split(whole, tags).rest == Split(buf, tags).rest
  }

  /** The frames taken after one more pass of the scan over buf. */
  ghost function Taken(done: seq<seq<byte>>, buf: seq<byte>, tags: set<byte>): seq<seq<byte>>
  {
    match NextFrame(buf, tags)
    case None => done
    case Some(next) => done + [next.0]
  }

  /** Taking the next frame out of buf keeps the invariant. */
  lemma ConsumedStep(whole: seq<byte>, done: seq<seq<byte>>, buf: seq<byte>, tags: set<byte>)
    requires Consumed(whole, done, buf, tags) && NextFrame(buf, tags).Some?
    ensures var (frame, after) := NextFrame(buf, tags).value;
      Consumed(whole, done + [frame], after, tags)
  {
    var (frame, after) := NextFrame(buf, tags).value;
    SplitStep(buf, tags);
    ConcatAssoc(done, [frame], Split(after, tags).frames);
  }

  /** Appending a whole frame to a sequence of whole frames. */
  lemma FramesSnoc(frames: seq<seq<byte>>, frame: seq<byte>)
    requires forall i :: 0 <= i < |frames| ==> |frames[i]| == FrameSize
    requires |frame| == FrameSize
    ensures forall i :: 0 <= i < |frames + [frame]| ==> |(frames + [frame])[i]| == FrameSize
  {
  }

  lemma ConcatAssoc<T>(a: seq<T>, b: seq<T>, c: seq<T>)
    ensures a + (b + c) == (a + b) + c
  {
  }

  /** When no frame is left, the frames taken are all of them and buf is
      what the extraction leaves over. */
  lemma ConsumedDone(whole: seq<byte>, done: seq<seq<byte>>, buf: seq<byte>, tags: set<byte>)
    requires Consumed(whole, done, buf, tags) && NoFrame(buf, tags)
    ensures done == Split(whole, tags).frames && buf == Split(whole, tags).rest
  {
    SplitNoFrame(buf, tags);
    assert done + [] == done;
  }

  /** A client port never takes a 'B' byte as the start of a frame. */
  lemma ClientFramesAreClientTagged(buf: seq<byte>)
    ensures forall k :: 0 <= k < |Split(buf, ClientTags).frames| ==> Split(buf, ClientTags).frames[k][0] == TagClient
  {
  }
}
