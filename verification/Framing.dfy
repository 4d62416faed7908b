/**
 Length-prefixed framing of the cluster transport (internal/cluster/transport.go): a frame is
 the body length as four big-endian bytes, then the body. The reader refuses lengths above
 64 MiB. Message encoding itself is taken as lossless, so bodies are byte strings.
 */
module Framing {

  type Byte = x: int | 0 <= x < 256 witness 0

  const MAX_MESSAGE: nat := 64 * 1024 * 1024
  const TWO_32: nat := 0x1_0000_0000

  /** The four header bytes of a 32-bit length. */
  function Header(length: nat): (h: seq<Byte>)
    requires length < TWO_32
    ensures |h| == 4
  {
    [length / 0x100_0000, length / 0x1_0000 % 256, length / 0x100 % 256, length % 256]
  }

  function Length(h: seq<Byte>): (n: nat)
    requires |h| == 4
  {
    (h[0] as int) * 0x100_0000 + (h[1] as int) * 0x1_0000 + (h[2] as int) * 0x100 + h[3]
  }

  lemma HeaderRoundTrip(length: nat)
    requires length < TWO_32
    ensures Length(Header(length)) == length
  {
    var high, mid := length / 0x1_0000, length / 0x100;
    assert mid / 0x100 == high && high / 0x100 == length / 0x100_0000;
    assert length == mid * 0x100 + length % 256;
    assert mid == high * 0x100 + mid % 256;
    assert high == (high / 0x100) * 0x100 + high % 256;
  }

  /** `g` and `h` agree up to some byte, and there `g` has the smaller one. */
  ghost predicate LexLess(g: seq<Byte>, h: seq<Byte>) {
    |g| == |h| && exists k :: 0 <= k < |g| && g[..k] == h[..k] && g[k] < h[k]
  }

  /** Big-endian: headers compare byte by byte as the lengths do. */
  lemma HeaderOrder(a: nat, b: nat)
    requires a < b < TWO_32
    ensures LexLess(Header(a), Header(b))
  {
    var g, h := Header(a), Header(b);
    var k := if g[0] != h[0] then 0 else if g[1] != h[1] then 1 else if g[2] != h[2] then 2 else 3;
    HeaderRoundTrip(a);
    HeaderRoundTrip(b);
    assert g[..k] == h[..k];
  }

  /** What `Send` writes; the length is truncated to 32 bits. */
  function Frame(body: seq<Byte>): seq<Byte> {
    Header(|body| % TWO_32) + body
  }

  datatype Outcome = Message(body: seq<Byte>) | TooLarge(length: nat) | Closed

  /** What `readMessage` makes of the bytes ahead, and what it leaves. */
  function Decode(s: seq<Byte>): (r: (Outcome, seq<Byte>))
    ensures r.0.Message? ==> |r.1| < |s|
  {
    if |s| < 4 then (Closed, []) else
    var length := Length(s[..4]);
    if length > MAX_MESSAGE then (TooLarge(length), s[4..])
    else if |s| < 4 + length then (Closed, [])
    else (Message(s[4..4 + length]), s[4 + length..])
  }

  /** The bodies a connection handler gets until the first error. */
  function Receive(s: seq<Byte>): seq<seq<Byte>>
    decreases |s|
  {
    var (outcome, rest) := Decode(s);
    if outcome.Message? then [outcome.body] + Receive(rest) else []
  }

  function Sent(bodies: seq<seq<Byte>>): seq<Byte> {
    if bodies == [] then [] else Frame(bodies[0]) + Sent(bodies[1..])
  }

  /** One frame is read back exactly, and nothing after it is touched, iff the body fits. */
  lemma DecodeFrameIff(body: seq<Byte>, rest: seq<Byte>)
    ensures Decode(Frame(body) + rest) == (Message(body), rest) <==> |body| <= 67_108_864
    ensures 67_108_864 < |body| < TWO_32 ==> Decode(Frame(body) + rest) == (TooLarge(|body|), body + rest)
    ensures |body| > MAX_MESSAGE ==> Decode(Frame(body) + rest).0 != Message(body)
  {
    var s := Frame(body) + rest;
    var length := |body| % TWO_32;
    HeaderRoundTrip(length);
    assert s[..4] == Header(length);
    assert s[4..] == body + rest && s[4..4 + |body|] == body && s[4 + |body|..] == rest;
  }

  lemma OneByteFrame(x: Byte, rest: seq<Byte>)
    ensures Decode([0, 0, 0, 1, x] + rest) == (Message([x]), rest)
  {
    var s: seq<Byte> := [0, 0, 0, 1, x] + rest;
    assert s[..4] == [0, 0, 0, 1] && s[4..5] == [x] && s[5..] == rest;
  }

  /** Every sequence of bodies arrives unchanged and in order iff none is too large. */
  lemma {:induction false} RoundTripIff(bodies: seq<seq<Byte>>)
    ensures Receive(Sent(bodies)) == bodies <==> forall b :: b in bodies ==> |b| <= MAX_MESSAGE
  {
    hide Decode, Frame;
    if bodies != [] {
      var rest := Sent(bodies[1..]);
      var (outcome, left) := Decode(Sent(bodies));
      DecodeFrameIff(bodies[0], rest);
      RoundTripIff(bodies[1..]);
      assert bodies == [bodies[0]] + bodies[1..];
      if |bodies[0]| > MAX_MESSAGE {
        assert outcome.Message? ==> Receive(Sent(bodies))[0] == outcome.body;
      } else {
        assert Receive(Sent(bodies)) == [bodies[0]] + Receive(rest);
        assert Receive(Sent(bodies)) == bodies ==> Receive(Sent(bodies))[1..] == bodies[1..];
        assert Receive(Sent(bodies))[1..] == Receive(rest);
      }
    }
  }

  // ---------------------------------------------------------------------------------
  // The connection
  // ---------------------------------------------------------------------------------

  ghost function Flatten(segments: seq<seq<Byte>>): seq<Byte> {
    if segments == [] then [] else segments[0] + Flatten(segments[1..])
  }

  /** A byte stream that arrives in arbitrary pieces; one `Read` never spans two of them. */
  class Conn {
    var segments: seq<seq<Byte>>

    constructor (arriving: seq<seq<Byte>>)
      ensures segments == arriving
    {
      segments := arriving;
    }

    ghost function Ahead(): seq<Byte>
      reads this
    {
      Flatten(segments)
    }

    method Read(max: nat) returns (got: seq<Byte>)
      requires segments != []
      modifies this
      ensures |got| <= max && old(Ahead()) == got + Ahead()
      ensures got == [] && max > 0 ==> |segments| < |old(segments)|
    {
      var first := segments[0];
      if |first| <= max {
        got := first;
        segments := segments[1..];
      } else {
        got := first[..max];
        segments := [first[max..]] + segments[1..];
        assert first == got + first[max..];
      }
    }

    /** Reads until the buffer of `n` bytes is full or the stream ends. */
    method ReadFull(n: nat) returns (ok: bool, buf: seq<Byte>)
      modifies this
      ensures ok <==> n <= |old(Ahead())|
      ensures ok ==> buf == old(Ahead())[..n] && Ahead() == old(Ahead())[n..]
      ensures !ok ==> buf == old(Ahead()) && Ahead() == []
    {
      buf := [];
      while |buf| < n && segments != []
        invariant |buf| <= n && old(Ahead()) == buf + Ahead()
        decreases n - |buf|, |segments|
      {
        var got := Read(n - |buf|);
        buf := buf + got;
      }
      ok := |buf| == n;
    }

    method ReadMessage() returns (outcome: Outcome)
      modifies this
      ensures (outcome, Ahead()) == Decode(old(Ahead()))
    {
      ghost var s := Ahead();
      var ok, header := ReadFull(4);
      if !ok {
        return Closed;
      }
      var length := Length(header);
      if length > MAX_MESSAGE {
        return TooLarge(length);
      }
      var body;
      ok, body := ReadFull(length);
      if !ok {
        return Closed;
      }
      assert s[4..][..length] == s[4..4 + length] && s[4..][length..] == s[4 + length..];
      return Message(body);
    }

    /** The loop of a connection handler, collecting what it would dispatch. */
    method HandleConn() returns (bodies: seq<seq<Byte>>)
      modifies this
      ensures bodies == Receive(old(Ahead()))
    {
      bodies := [];
      while true
        invariant bodies + Receive(Ahead()) == Receive(old(Ahead()))
        decreases |Ahead()|
      {
        ghost var s := Ahead();
        var outcome := ReadMessage();
        if !outcome.Message? {
          assert Receive(s) == [];
          return;
        }
        assert Receive(s) == [outcome.body] + Receive(Ahead());
        bodies := bodies + [outcome.body];
      }
    }
  }
}
