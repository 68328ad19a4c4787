/** The packet framing of the Opus streams: a two-byte big-endian length, then the packet. */
module Framing {
  import opened Bits

  const MAX_PACKET: nat := 8190

  /** `(size as u16).to_be_bytes()`. */
  function ToBigEndian(size: nat): (b: seq<byte>)
    ensures |b| == 2
  {
    [(size / 256 % 256) as byte, (size % 256) as byte]
  }

  /** `u16::from_be_bytes`. */
  function FromBigEndian(b: seq<byte>): nat
    requires |b| == 2
  {
    b[0] as nat * 256 + b[1] as nat
  }

  /** What the record loop writes for one packet. */
  function Frame(packet: seq<byte>): seq<byte> {
    ToBigEndian(|packet|) + packet
  }

  function FrameAll(packets: seq<seq<byte>>): seq<byte> {
    if packets == [] then [] else Frame(packets[0]) + FrameAll(packets[1..])
  }

  /** How reading one packet off a byte stream that ends can come out. `Oversized` is the
      slice of the 8190-byte buffer going out of range. */
  datatype Parsed = Packet(packet: seq<byte>, rest: seq<byte>) | EndOfStream | Oversized

  function ParseOne(bytes: seq<byte>): Parsed {
    if |bytes| < 2 then EndOfStream
    else
      var length := FromBigEndian(bytes[..2]);
      if length > MAX_PACKET then Oversized
      else if |bytes| - 2 < length then EndOfStream
      else Packet(bytes[2..2 + length], bytes[2 + length..])
  }

  datatype Ending = Ended | TooLong | Stopped

  /** At most `rounds` packets read off `bytes`: the packets, why the reading stopped,
      and what was not read. */
  function Parse(bytes: seq<byte>, rounds: nat): (seq<seq<byte>>, Ending, seq<byte>)
    decreases rounds
  {
    if rounds == 0 then ([], Stopped, bytes)
    else
      match ParseOne(bytes)
      case EndOfStream => ([], Ended, bytes)
      case Oversized => ([], TooLong, bytes)
      case Packet(p, rest) =>
        var (ps, ending, left) := Parse(rest, rounds - 1);
        ([p] + ps, ending, left)
  }

  /** The byte order on the wire: the first byte counts 256 times the second, on both sides. */
  lemma ByteOrder(size: nat, b: seq<byte>)
    requires size < 0x1_0000 && |b| == 2
    ensures ToBigEndian(size)[0] as nat * 256 + ToBigEndian(size)[1] as nat == size
    ensures FromBigEndian(b) == size <==> b[0] as nat * 256 + b[1] as nat == size
    ensures FromBigEndian([0, b[1]]) == b[1] as nat
    ensures FromBigEndian(b) == size <==> ToBigEndian(size) == b
  {
  }

  /** Lengths compare as their bytes do, from the first on. */
  lemma ByteOrderIsLexicographic(a: nat, b: nat)
    requires a < 0x1_0000 && b < 0x1_0000
    ensures var x, y := ToBigEndian(a), ToBigEndian(b);
            a < b <==> x[0] < y[0] || (x[0] == y[0] && x[1] < y[1])
  {
    ByteOrder(a, [0, 0]);
    ByteOrder(b, [0, 0]);
  }

  /** A framed packet: its length in the first two bytes, the first counting 256 times the
      second, and then its bytes. */
  lemma FrameLayout(packet: seq<byte>)
    requires |packet| < 0x1_0000
    ensures var f := Frame(packet);
            |f| == 2 + |packet| && f[0] as nat * 256 + f[1] as nat == |packet| && f[2..] == packet
  {
    ByteOrder(|packet|, [0, 0]);
  }

  /** What is read off a byte stream, told from the bytes: a packet when its length is at
      most 8190 and all of it is there, a panic when the length is larger, else the end. */
  lemma ParseOneExactly(bytes: seq<byte>, packet: seq<byte>, rest: seq<byte>)
    ensures ParseOne(bytes) == Packet(packet, rest) <==>
            && |packet| <= 8190 && |bytes| == 2 + |packet| + |rest|
            && bytes[0] as nat * 256 + bytes[1] as nat == |packet| && bytes[2..] == packet + rest
    ensures ParseOne(bytes) == Oversized <==> |bytes| >= 2 && bytes[0] as nat * 256 + bytes[1] as nat > 8190
  {
    if |bytes| >= 2 {
      var length := bytes[0] as nat * 256 + bytes[1] as nat;
      assert bytes[..2][0] == bytes[0] && bytes[..2][1] == bytes[1];
      if length <= |bytes| - 2 {
        assert bytes[2..] == bytes[2..2 + length] + bytes[2 + length..];
      }
      if bytes[2..] == packet + rest && |packet| == length {
        assert bytes[2..2 + length] == bytes[2..][..length] == packet;
        assert bytes[2 + length..] == bytes[2..][length..] == rest;
      }
    }
  }

  lemma BigEndianRoundTrip(size: nat)
    ensures FromBigEndian(ToBigEndian(size)) == size <==> size < 0x1_0000
  {
  }

  lemma ParseFramed(packet: seq<byte>, more: seq<byte>)
    requires |packet| <= MAX_PACKET
    ensures ParseOne(Frame(packet) + more) == Packet(packet, more)
  {
    var bytes := Frame(packet) + more;
    BigEndianRoundTrip(|packet|);
    assert bytes[..2] == ToBigEndian(|packet|);
    assert bytes[2..2 + |packet|] == packet && bytes[2 + |packet|..] == more;
  }

  ghost predicate Fit(packets: seq<seq<byte>>) {
    forall i :: 0 <= i < |packets| ==> |packets[i]| <= MAX_PACKET
  }

  /** Round trip: a framed stream parses into the packets it was made of, then whatever follows. */
  lemma {:induction false} RoundTrip(packets: seq<seq<byte>>, more: seq<byte>, rounds: nat)
    requires Fit(packets) && |packets| <= rounds
    ensures var (ps, ending, left) := Parse(more, rounds - |packets|);
            Parse(FrameAll(packets) + more, rounds) == (packets + ps, ending, left)
    decreases |packets|
  {
    hide ParseOne, Frame;
    if packets == [] {
      assert [] + more == more;
      assert [] + Parse(more, rounds).0 == Parse(more, rounds).0;
    } else {
      var p, rest := packets[0], packets[1..];
      assert FrameAll(packets) + more == Frame(p) + (FrameAll(rest) + more);
      ParseFramed(p, FrameAll(rest) + more);
      RoundTrip(rest, more, rounds - 1);
      var (ps, ending, left) := Parse(more, rounds - |packets|);
      assert [p] + (rest + ps) == packets + ps;
    }
  }

  /** How many packets lie wholly in the first `cut` bytes of the framed stream. */
  function WhollyBefore(packets: seq<seq<byte>>, cut: nat): (j: nat)
    ensures j <= |packets|
  {
    if packets == [] || |Frame(packets[0])| > cut then 0
    else 1 + WhollyBefore(packets[1..], cut - |Frame(packets[0])|)
  }

  /** WhollyBefore is what its name says. */
  lemma {:induction false} WhollyBeforeIsLast(packets: seq<seq<byte>>, cut: nat, j: nat)
    requires j <= |packets|
    ensures |FrameAll(packets[..j])| <= cut <==> j <= WhollyBefore(packets, cut)
    decreases |packets|
  {
    if j > 0 {
      assert packets[..j][1..] == packets[1..][..j - 1];
      if |Frame(packets[0])| <= cut {
        WhollyBeforeIsLast(packets[1..], cut - |Frame(packets[0])|, j - 1);
      }
    }
  }

  lemma ParseCut(packet: seq<byte>, more: seq<byte>, cut: nat)
    requires |packet| <= MAX_PACKET && cut < |Frame(packet)|
    ensures ParseOne((Frame(packet) + more)[..cut]) == EndOfStream
  {
    BigEndianRoundTrip(|packet|);
    if cut >= 2 {
      assert (Frame(packet) + more)[..cut][..2] == ToBigEndian(|packet|);
    }
  }

  /** Truncation: of a framed stream cut anywhere, exactly the packets wholly before the
      cut are read, and then the end of the stream is reported. */
  lemma {:induction false} Truncation(packets: seq<seq<byte>>, cut: nat, rounds: nat)
    requires Fit(packets) && cut <= |FrameAll(packets)| && |packets| < rounds
    ensures var (ps, ending, left) := Parse(FrameAll(packets)[..cut], rounds);
            ps == packets[..WhollyBefore(packets, cut)] && ending == Ended
    decreases |packets|
  {
    if packets != [] {
      var p, rest := packets[0], packets[1..];
      var head, tail := Frame(p), FrameAll(rest);
      hide ParseOne, Frame, FrameAll;
      if cut < |head| {
        ParseCut(p, tail, cut);
      } else {
        var cut' := cut - |head|;
        assert (head + tail)[..cut] == head + tail[..cut'];
        ParseFramed(p, tail[..cut']);
        Truncation(rest, cut', rounds - 1);
        assert [p] + rest[..WhollyBefore(rest, cut')] == packets[..WhollyBefore(packets, cut)];
      }
    }
  }
}
