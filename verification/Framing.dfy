/** Messages on a byte stream, each behind its length in four bytes, most significant first. */
module Framing {
  import opened Wrappers

  newtype byte = x: int | 0 <= x < 256

  const TWO_TO_32 := 0x1_0000_0000

  /** A 32-bit number in network byte order. */
  function ToNetwork(n: int): (bytes: seq<byte>)
    requires 0 <= n < TWO_TO_32
    ensures |bytes| == 4
  {
    [(n / 0x100_0000) as byte, (n / 0x1_0000 % 256) as byte, (n / 256 % 256) as byte, (n % 256) as byte]
  }

  function ToHost(bytes: seq<byte>): (n: nat)
    requires |bytes| == 4
    ensures n < TWO_TO_32
  {
    ((bytes[0] as int * 256 + bytes[1] as int) * 256 + bytes[2] as int) * 256 + bytes[3] as int
  }

  lemma NetworkOrderRoundTrip(n: nat)
    requires n < TWO_TO_32
    ensures ToHost(ToNetwork(n)) == n
  {
    var a, b := n / 256, n / 0x1_0000;
    assert b == a / 256 && n / 0x100_0000 == b / 256;
    assert a == 256 * (a / 256) + a % 256;
    assert b == 256 * (b / 256) + b % 256;
    assert n == 256 * a + n % 256;
  }

  /** What four bytes stand for, the first one being worth most. */
  function Worth(b0: byte, b1: byte, b2: byte, b3: byte): int {
    b0 as int * 16777216 + b1 as int * 65536 + b2 as int * 256 + b3 as int
  }

  /** The change to network order puts the most significant byte first. */
  lemma NetworkOrderIsBigEndian(n: nat)
    requires n < 4294967296
    ensures var b := ToNetwork(n); Worth(b[0], b[1], b[2], b[3]) == n
  {
    NetworkOrderRoundTrip(n);
  }

  /** And the change back reads it so. */
  lemma HostReadsBigEndian(b: seq<byte>)
    requires |b| == 4
    ensures ToHost(b) == Worth(b[0], b[1], b[2], b[3])
  {
  }

  /** The bytes written for a message; its length is cut to 32 bits. */
  function Frame(message: seq<byte>): seq<byte> {
    ToNetwork(|message| % TWO_TO_32) + message
  }

  predicate Framable(message: seq<byte>) {
    |message| < TWO_TO_32
  }

  datatype Decoded = Message(message: seq<byte>, rest: seq<byte>) | Failure

  /** Reads one message from a stream that ends where its bytes do. */
  function Decode(stream: seq<byte>): Decoded {
    if |stream| < 4 then Failure
    else
      var length := ToHost(stream[..4]);
      if |stream| - 4 < length then Failure
      else Message(stream[4..4 + length], stream[4 + length..])
  }

  /** Reading behind a written frame gives the message back, whatever follows, exactly when its length fits. */
  lemma FrameRoundTripIff(message: seq<byte>, rest: seq<byte>)
    ensures Decode(Frame(message) + rest) == Message(message, rest) <==> Framable(message)
  {
    var length := |message| % TWO_TO_32;
    var stream := Frame(message) + rest;
    NetworkOrderRoundTrip(length);
    assert stream[..4] == ToNetwork(length);
    if Framable(message) {
      assert stream[4..4 + length] == message;
      assert stream[4 + length..] == rest;
    } else {
      assert |stream[4..4 + length]| != |message|;
    }
  }

  /** Four bytes that stand for a length, and then a message. */
  predicate IsLengthAnd(bytes: seq<byte>, length: int, message: seq<byte>) {
    |bytes| >= 4 && Worth(bytes[0], bytes[1], bytes[2], bytes[3]) == length && bytes[4..] == message
  }

  /** The stream begins with a length and at least as many bytes. */
  predicate StartsWhole(stream: seq<byte>) {
    |stream| >= 4 && Worth(stream[0], stream[1], stream[2], stream[3]) <= |stream| - 4
  }

  lemma FrameInBytes(message: seq<byte>)
    ensures IsLengthAnd(Frame(message), |message| % 4294967296, message)
  {
    var header := ToNetwork(|message| % TWO_TO_32);
    NetworkOrderIsBigEndian(|message| % TWO_TO_32);
    assert Frame(message)[..4] == header && Frame(message)[4..] == message;
  }

  lemma WholeFrame(stream: seq<byte>, length: nat)
    requires |stream| >= 4 && Worth(stream[0], stream[1], stream[2], stream[3]) == length <= |stream| - 4
    ensures IsLengthAnd(stream[..4 + length], length, stream[4..4 + length])
    ensures stream == stream[..4 + length] + stream[4 + length..]
  {
  }

  /** A read takes the length and as many bytes, and fails exactly when there are not that many. */
  lemma DecodeInBytes(stream: seq<byte>)
    ensures match Decode(stream)
            case Message(m, rest) => exists sent :: IsLengthAnd(sent, |m|, m) && stream == sent + rest
            case Failure => !StartsWhole(stream)
  {
    if |stream| >= 4 {
      var length := ToHost(stream[..4]);
      HostReadsBigEndian(stream[..4]);
      assert length == Worth(stream[0], stream[1], stream[2], stream[3]);
      if length <= |stream| - 4 {
        WholeFrame(stream, length);
      }
    }
  }

  // ----- Streams of messages

  function Encode(messages: seq<seq<byte>>): seq<byte> {
    if messages == [] then [] else Frame(messages[0]) + Encode(messages[1..])
  }

  /** The messages that reading over and over gives, until a read fails. */
  function DecodeAll(stream: seq<byte>): seq<seq<byte>>
    decreases |stream|
  {
    match Decode(stream)
    case Failure => []
    case Message(m, rest) => [m] + DecodeAll(rest)
  }

  predicate AllFramable(messages: seq<seq<byte>>) {
    forall i :: 0 <= i < |messages| ==> Framable(messages[i])
  }

  /** Reading a stream that begins with a whole frame. */
  lemma DecodeAllStep(message: seq<byte>, rest: seq<byte>)
    requires Framable(message)
    ensures DecodeAll(Frame(message) + rest) == [message] + DecodeAll(rest)
  {
    FrameRoundTripIff(message, rest);
  }

  lemma HeaderOf(message: seq<byte>) returns (header: seq<byte>)
    requires Framable(message)
    ensures |header| == 4 && ToHost(header) == |message| && Frame(message) == header + message
  {
    header := ToNetwork(|message|);
    NetworkOrderRoundTrip(|message|);
  }

  lemma CutBehindHeaderFails(header: seq<byte>, message: seq<byte>, cut: nat)
    requires |header| == 4 && ToHost(header) == |message| && cut < 4 + |message|
    ensures Decode((header + message)[..cut]) == Failure
  {
    if cut >= 4 {
      assert (header + message)[..cut][..4] == header;
    }
  }

  /** Reading a stream that ends inside its first frame. */
  lemma PartialFrameFails(message: seq<byte>, cut: nat)
    requires Framable(message) && cut < |Frame(message)|
    ensures Decode(Frame(message)[..cut]) == Failure
  {
    var header := HeaderOf(message);
    CutBehindHeaderFails(header, message, cut);
  }

  /** The bytes of a stream before a cut, inside the first frame or behind it. */
  lemma CutAtFrame(frame: seq<byte>, tail: seq<byte>, cut: nat)
    requires cut <= |frame| + |tail|
    ensures cut < |frame| ==> (frame + tail)[..cut] == frame[..cut]
    ensures cut >= |frame| ==> (frame + tail)[..cut] == frame + tail[..cut - |frame|]
  {
  }

  /** Of a stream cut after some bytes, the first n messages lie wholly before the cut and are what is read. */
  ghost predicate ReadsWhole(messages: seq<seq<byte>>, cut: nat, n: nat)
    requires cut <= |Encode(messages)|
  {
    && n <= |messages|
    && DecodeAll(Encode(messages)[..cut]) == messages[..n]
    && |Encode(messages[..n])| <= cut
    && (n < |messages| ==> cut < |Encode(messages[..n + 1])|)
  }

  lemma CutInsideFrame(messages: seq<seq<byte>>, cut: nat)
    requires AllFramable(messages) && messages != [] && cut < |Frame(messages[0])| && cut <= |Encode(messages)|
    ensures ReadsWhole(messages, cut, 0)
  {
    CutAtFrame(Frame(messages[0]), Encode(messages[1..]), cut);
    PartialFrameFails(messages[0], cut);
    EncodeTake(messages, 0);
  }

  lemma {:induction false} CutBehindFrame(messages: seq<seq<byte>>, cut: nat, n: nat)
    requires AllFramable(messages) && messages != [] && |Frame(messages[0])| <= cut <= |Encode(messages)|
    requires ReadsWhole(messages[1..], cut - |Frame(messages[0])|, n)
    ensures ReadsWhole(messages, cut, n + 1)
  {
    var tail := Encode(messages[1..]);
    CutAtFrame(Frame(messages[0]), tail, cut);
    DecodeAllStep(messages[0], tail[..cut - |Frame(messages[0])|]);
    EncodeTake(messages, n);
    if n + 1 < |messages| {
      EncodeTake(messages, n + 1);
    }
    assert messages[..n + 1] == [messages[0]] + messages[1..][..n];
  }

  /**
   * A stream cut after any number of bytes is read as the messages whose frames lie wholly before the cut: as
   * many as fit, and no part of a further one.
   */
  lemma {:induction false} CutStreamDecodesToPrefix(messages: seq<seq<byte>>, cut: nat) returns (whole: nat)
    requires AllFramable(messages) && cut <= |Encode(messages)|
    ensures ReadsWhole(messages, cut, whole)
  {
    if messages == [] {
      whole := 0;
    } else if cut < |Frame(messages[0])| {
      whole := 0;
      CutInsideFrame(messages, cut);
    } else {
      var n := CutStreamDecodesToPrefix(messages[1..], cut - |Frame(messages[0])|);
      whole := n + 1;
      CutBehindFrame(messages, cut, n);
    }
  }

  lemma EncodeTake(messages: seq<seq<byte>>, n: nat)
    requires messages != [] && n + 1 <= |messages|
    ensures Encode(messages[..n + 1]) == Frame(messages[0]) + Encode(messages[1..][..n])
  {
    assert messages[..n + 1][1..] == messages[1..][..n];
  }

  /** What was written is what is read, message by message. */
  lemma {:induction false} DecodeAllInvertsEncode(messages: seq<seq<byte>>)
    requires AllFramable(messages)
    ensures DecodeAll(Encode(messages)) == messages
  {
    if messages != [] {
      DecodeAllInvertsEncode(messages[1..]);
      DecodeAllStep(messages[0], Encode(messages[1..]));
    }
  }

  /** No byte stream has two readings as a sequence of framed messages. */
  lemma EncodingIsUniquelyDecodable(a: seq<seq<byte>>, b: seq<seq<byte>>)
    requires AllFramable(a) && AllFramable(b) && Encode(a) == Encode(b)
    ensures a == b
  {
    DecodeAllInvertsEncode(a);
    DecodeAllInvertsEncode(b);
  }

  // ----- The two ends of a connection

  class Connection {
    /** The bytes that have been sent and not yet read; a read beyond them finds the connection closed. */
    var pending: seq<byte>

    constructor ()
      ensures pending == []
    {
      pending := [];
    }

    method SendBytes(message: seq<byte>)
      modifies this
      ensures pending == old(pending) + Frame(message)
      ensures var sent := pending[|old(pending)|..];
              IsLengthAnd(sent, |message| % 4294967296, message)
    {
      var length := ToNetwork(|message| % TWO_TO_32);
      var buffers: seq<seq<byte>> := [];
      buffers := buffers + [length];
      buffers := buffers + [message];
      for i := 0 to |buffers|
        invariant pending == old(pending) + (if i > 0 then length else []) + (if i > 1 then message else [])
      {
        pending := pending + buffers[i];
      }
      FrameInBytes(message);
      assert pending[|old(pending)|..] == Frame(message);
    }

    /** Fills a buffer of n bytes; on a connection that ends first, takes what there is and fails. */
    method Read(n: nat) returns (buffer: Option<seq<byte>>)
      modifies this
      ensures n <= |old(pending)| ==> buffer == Some(old(pending)[..n]) && pending == old(pending)[n..]
      ensures n > |old(pending)| ==> buffer == None && pending == []
    {
      var filled: seq<byte> := [];
      while |filled| < n
        invariant filled + pending == old(pending) && |filled| <= n
        decreases n - |filled|
      {
        if pending == [] {
          return None;
        }
        filled, pending := filled + [pending[0]], pending[1..];
      }
      return Some(filled);
    }

    method ReadBytes() returns (message: Option<seq<byte>>)
      modifies this
      ensures match Decode(old(pending))
              case Message(m, rest) => message == Some(m) && pending == rest
              case Failure => message == None && pending == []
      ensures match message
              case Some(m) => exists sent :: IsLengthAnd(sent, |m|, m) && old(pending) == sent + pending
              case None => pending == [] && !StartsWhole(old(pending))
    {
      ghost var stream := pending;
      var header := Read(4);
      if header.None? {
        return None;
      }
      var length := ToHost(header.value);
      DecodeInBytes(stream);
      assert length <= |stream| - 4 ==>
          stream[4..][..length] == stream[4..4 + length] && stream[4..][length..] == stream[4 + length..];
      message := Read(length);
    }
  }
}
