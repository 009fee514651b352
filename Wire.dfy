/** The three fixed 10-byte frames of the bridge/client wire protocol and their
    decoders. Integers travel as unsigned 32-bit values in network byte order
    (big-endian), as htonl/ntohl produce them. */
module Wire {

  /** An unsigned char of a frame. */
  type byte = x: int | 0 <= x < 0x100
  /** An unsigned 32-bit value: bridge ids, root ids, path lengths. */
  type u32 = x: int | 0 <= x < 0x1_0000_0000

  /** Every frame on the wire is exactly this long. */
  const FrameSize: nat := 10

  /** First byte of a bridge-protocol frame ('B'). */
  const TagBridge: byte := 0x42
  /** First byte of a client letter frame ('C'). */
  const TagClient: byte := 0x43

  /** Second byte of a root advertisement and of an open request. */
  const SubtypeRoot: byte := 0
  const SubtypeOpen: byte := 1

  /** rootPath + 1 on an unsigned 32-bit value: it wraps to 0 at 2^32 - 1. */
  function Inc(x: u32): (r: u32)
    ensures x < 0xFFFF_FFFF ==> r == x + 1
    ensures x == 0xFFFF_FFFF ==> r == 0
  {
    (x + 1) % 0x1_0000_0000
  }

  /** htonl: the four bytes of x, most significant first. */
  function Be32(x: u32): (r: seq<byte>)
    ensures |r| == 4
    ensures FromBe32(r) == x
  {
    var q1: int := x / 0x100;
    var q2: int := q1 / 0x100;
    var b0: int, b1: int, b2: int, b3: int := q2 / 0x100, q2 % 0x100, q1 % 0x100, x % 0x100;
    [b0, b1, b2, b3]
  }

  /** ntohl over four bytes read from a frame. */
  function FromBe32(b: seq<byte>): u32
    requires |b| == 4
  {
    var b0: int, b1: int, b2: int, b3: int := b[0], b[1], b[2], b[3];
    ((b0 * 0x100 + b1) * 0x100 + b2) * 0x100 + b3
  }

  /** Decoding loses nothing: any four bytes are the encoding of their value. */
  lemma {:induction false} Be32OfFromBe32(b: seq<byte>)
    requires |b| == 4
    ensures Be32(FromBe32(b)) == b
  {
    var y2: int := b[0] as int * 0x100 + b[1] as int;
    var y1: int := y2 * 0x100 + b[2] as int;
    var x: int := y1 * 0x100 + b[3] as int;
    assert x / 0x100 == y1 && x % 0x100 == b[3];
    assert y1 / 0x100 == y2 && y1 % 0x100 == b[2];
    assert y2 / 0x100 == b[0] && y2 % 0x100 == b[1];
  }

  /** Root advertisement: 'B', 0, rootID, advertised path. Callers pass the
      path already incremented with Inc. */
  function RootAdvert(rootID: u32, path: u32): (f: seq<byte>)
    ensures |f| == FrameSize
    ensures f[0] == TagBridge && f[1] == SubtypeRoot
    ensures RootOf(f) == (rootID, path)
  {
    var f := [TagBridge, SubtypeRoot] + Be32(rootID) + Be32(path);
    assert f[2..6] == Be32(rootID) && f[6..10] == Be32(path);
    f
  }

  /** Open request: 'B', 1, then eight zero bytes. */
  function OpenRequest(): (f: seq<byte>)
    ensures |f| == FrameSize
    ensures f[0] == TagBridge && f[1] == SubtypeOpen
    ensures RootOf(f) == (0, 0)
  {
    [TagBridge, SubtypeOpen, 0, 0, 0, 0, 0, 0, 0, 0]
  }

  /** What a bridge port reads out of any 'B' frame: bytes 2-5 and 6-9. */
  function RootOf(f: seq<byte>): (u32, u32)
    requires |f| == FrameSize
  {
    (FromBe32(f[2..6]), FromBe32(f[6..10]))
  }

  /** Every 10-byte frame tagged 'B' with subtype 0 is the advertisement of
      the pair it decodes to. */
  lemma {:induction false} RootAdvertOfRootOf(f: seq<byte>)
    requires |f| == FrameSize && f[0] == TagBridge && f[1] == SubtypeRoot
    ensures RootAdvert(RootOf(f).0, RootOf(f).1) == f
  {
    Be32OfFromBe32(f[2..6]);
    Be32OfFromBe32(f[6..10]);
    assert f == [f[0], f[1]] + f[2..6] + f[6..10];
  }

  /** The advertised path is the unsigned sum, so a path of 2^32 - 1 is
      advertised as 0. */
  lemma AdvertisedPathWraps(rootID: u32)
    ensures RootOf(RootAdvert(rootID, Inc(0xFFFF_FFFF))).1 == 0
  {
  }

  /** A decoded client letter frame. */
  datatype LetterFields = LetterFields(source: u32, dest: u32, letter: byte)

  /** Client letter: 'C', source id, destination id, one letter byte. */
  function LetterFrame(source: u32, dest: u32, letter: byte): (f: seq<byte>)
    ensures |f| == FrameSize
    ensures f[0] == TagClient
    ensures LetterOf(f) == LetterFields(source, dest, letter)
  {
    var f := [TagClient] + Be32(source) + Be32(dest) + [letter];
    assert f[1..5] == Be32(source) && f[5..9] == Be32(dest);
    f
  }

  /** What a client port reads out of a 'C' frame: bytes 1-4, 5-8 and 9. */
  function LetterOf(f: seq<byte>): LetterFields
    requires |f| == FrameSize
  {
    LetterFields(FromBe32(f[1..5]), FromBe32(f[5..9]), f[9])
  }

  /** Every 10-byte frame tagged 'C' is the letter frame of its fields. */
  lemma {:induction false} LetterFrameOfLetterOf(f: seq<byte>)
    requires |f| == FrameSize && f[0] == TagClient
    ensures LetterFrame(LetterOf(f).source, LetterOf(f).dest, LetterOf(f).letter) == f
  {
    Be32OfFromBe32(f[1..5]);
    Be32OfFromBe32(f[5..9]);
    assert f == [f[0]] + f[1..5] + f[5..9] + [f[9]];
  }
}
