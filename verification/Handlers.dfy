/** The stream loops of audiowire/src/handlers.rs over the real ring: the drain loops of
    the record side and the Opus playback loop. */
module Handlers {
  import opened Bits
  import opened Sequences
  import opened Memory
  import opened RingBuffers
  import opened Streams
  import DropQueue
  import Framing
  import Datagrams

  /** A TCP connection, one direction: the bytes written and not yet read. For a reader,
      every byte that arrives before the other side closes. */
  class Pipe {
    var bytes: seq<byte>

    constructor (arriving: seq<byte>)
      ensures bytes == arriving
    {
      bytes := arriving;
    }

    method WriteAll(src: seq<byte>)
      modifies this
      ensures bytes == old(bytes) + src
    {
      bytes := bytes + src;
    }

    /** Fills the buffer, or consumes what there is and reports the end of the stream. */
    method ReadExact(n: nat) returns (ok: bool, data: seq<byte>)
      modifies this
      ensures ok <==> n <= |old(bytes)|
      ensures ok ==> data == old(bytes)[..n] && bytes == old(bytes)[n..]
      ensures !ok ==> bytes == []
    {
      ok := n <= |bytes|;
      if ok {
        data, bytes := bytes[..n], bytes[n..];
      } else {
        data, bytes := [], [];
      }
    }
  }

  // ---- the raw record loop

  /** The bytes of `total` that make up whole buffers of `n`. */
  function WholeBuffers(total: nat, n: nat): (w: nat)
    requires n > 0
    ensures w <= total && total - w == total % n
  {
    total / n * n
  }

  /** A drain has sent `sent` bytes, in whole buffers of `n`, of what it could reach. */
  ghost predicate Drained(q: seq<byte>, newest: seq<byte>, sent: nat, n: nat, window: nat) {
    0 < n && sent <= |newest| && sent % n == 0 && DropQueue.Newest(q, window) == newest[sent..]
  }

  lemma DrainStarts(q: seq<byte>, n: nat, window: nat)
    requires 0 < n
    ensures Drained(q, DropQueue.Newest(q, window), 0, n, window)
  {
  }

  lemma DrainStep(q: seq<byte>, newest: seq<byte>, sent: nat, n: nat, window: nat)
    requires Drained(q, newest, sent, n, window) && n <= window && n <= |q|
    ensures var r := DropQueue.PopBackFrom(q, n, window);
            && |r.taken| == n && sent + n <= |newest|
            && r.taken == newest[sent..sent + n]
            && newest[..sent + n] == newest[..sent] + r.taken
            && Drained(r.rest, newest, sent + n, n, window)
  {
    DropQueue.PopsNewest(q, n, window);
    hide DropQueue.PopBackFrom, DropQueue.Newest;
    RemainderUnique(n, n, 1, 0);
    SumWhole(sent, n, n);
    SliceAgain(newest, sent, n);
  }

  lemma SliceAgain(s: seq<byte>, sent: nat, n: nat)
    requires sent + n <= |s|
    ensures s[sent..][..n] == s[sent..sent + n] && s[sent..][n..] == s[sent + n..]
    ensures s[..sent + n] == s[..sent] + s[sent..sent + n]
  {
  }

  lemma DrainedMeans(q: seq<byte>, newest: seq<byte>, sent: nat, n: nat, window: nat)
    requires Drained(q, newest, sent, n, window)
    ensures sent <= |newest| && DropQueue.Newest(q, window) == newest[sent..]
    ensures |q| <= window ==> q == newest[sent..]
  {
  }

  lemma DrainEnds(q: seq<byte>, newest: seq<byte>, sent: nat, n: nat, window: nat)
    requires Drained(q, newest, sent, n, window) && |q| < n <= window
    ensures q == newest[sent..] && sent == WholeBuffers(|newest|, n)
  {
    RemainderUnique(|newest|, n, sent / n, |q|);
  }

  /** The inner loop of handle_raw_record_stream, with no capture in between: it ends, has
      sent the most whole buffers there are in the newest max_bufsize bytes, oldest first,
      and leaves what does not make up a buffer. */
  method DrainRaw(stream: AwStream, buf: array<byte>, pipe: Pipe)
    requires stream.Valid() && buf != stream.ringbuf.data
    requires 0 < buf.Length <= stream.maxBufsize as int
    modifies stream.ringbuf`head, buf, pipe
    ensures stream.Valid()
    ensures var newest, n := DropQueue.Newest(old(stream.Queue()), stream.maxBufsize as nat), buf.Length;
            var whole := WholeBuffers(|newest|, n);
            && pipe.bytes == old(pipe.bytes) + newest[..whole]
            && stream.Queue() == newest[whole..]
            && |stream.Queue()| == |newest| % n
  {
    hide DropQueue.PopBackFrom, DropQueue.Newest, WholeBuffers, Drained, AwStream.Queue, AwStream.Valid;
    var bufsize, window := buf.Length as size_t, stream.maxBufsize;
    ghost var newest, before := DropQueue.Newest(stream.Queue(), window as nat), pipe.bytes;
    ghost var sent := 0;
    DrainStarts(stream.Queue(), buf.Length, window as nat);
    var peek := stream.RecordPeek();
    while peek >= bufsize
      invariant stream.Valid() && peek as int == |stream.Queue()|
      invariant sent <= |newest| && Drained(stream.Queue(), newest, sent, buf.Length, window as nat)
      invariant pipe.bytes == before + newest[..sent]
      decreases |newest| - sent
    {
      DrainStep(stream.Queue(), newest, sent, buf.Length, window as nat);
      var read := stream.RecordRead(buf, bufsize);
      pipe.WriteAll(buf[..read]);
      sent := sent + buf.Length;
      peek := stream.RecordPeek();
    }
    DrainEnds(stream.Queue(), newest, sent, buf.Length, window as nat);
  }

  // ---- the raw playback loop

  /** handle_raw_playback_stream, going round `rounds` times before it is told to stop and
      the device taking nothing meanwhile: whole buffers move from the connection to the
      ring, in order, none dropped, until there is no room or the stream ends. */
  method PlayRaw(stream: AwStream, pipe: Pipe, bufsize: size_t, rounds: nat) returns (ended: bool, ghost moved: nat)
    requires stream.Valid() && bufsize > 0
    modifies stream.ringbuf, stream.ringbuf.data, pipe
    ensures stream.Valid()
    ensures moved <= |old(pipe.bytes)| && moved % bufsize as int == 0 && moved <= rounds * bufsize as nat
    ensures stream.Queue() == old(stream.Queue()) + old(pipe.bytes)[..moved]
    ensures ended ==> |old(pipe.bytes)| - moved < bufsize as int <= stream.ringbuf.mask as int - |stream.Queue()|
    ensures !ended ==> pipe.bytes == old(pipe.bytes)[moved..]
    ensures !ended && bufsize as int <= stream.ringbuf.mask as int - |stream.Queue()| ==> moved == rounds * bufsize as nat
  {
    hide AwStream.Queue, AwStream.Valid, DropQueue.Push;
    ghost var q, all := stream.Queue(), pipe.bytes;
    moved := 0;
    var i := 0;
    assert q + all[..0] == q && all[0..] == all && 0 % bufsize as int == 0;
    while i < rounds
      invariant i <= rounds && stream.Valid()
      invariant moved <= |all| && moved % bufsize as int == 0 && moved <= i * bufsize as nat
      invariant stream.Queue() == q + all[..moved] && pipe.bytes == all[moved..]
      invariant bufsize as int <= stream.ringbuf.mask as int - |stream.Queue()| ==> moved == i * bufsize as nat
    {
      var peek := stream.PlaybackPeek();
      if peek >= bufsize {
        var ok, data := pipe.ReadExact(bufsize as nat);
        if !ok {
          return true, moved;
        }
        DropQueue.PushDrops(stream.Queue(), stream.ringbuf.mask as nat, data);
        var written := stream.PlaybackWrite(data);
        MovedFurther(q, all, moved, data);
        AnotherRound(moved, i, bufsize as nat);
        moved := moved + bufsize as nat;
      }
      Successor(i, bufsize as nat);
      i := i + 1;
    }
    ended := false;
  }

  lemma MovedFurther(q: seq<byte>, all: seq<byte>, moved: nat, data: seq<byte>)
    requires moved <= |all| && data <= all[moved..]
    ensures q + all[..moved] + data == q + all[..moved + |data|]
    ensures all[moved..][|data|..] == all[moved + |data|..]
  {
  }

  lemma AnotherRound(moved: nat, i: nat, n: nat)
    requires n > 0 && moved % n == 0 && moved <= i * n
    ensures (moved + n) % n == 0 && moved + n <= (i + 1) * n
    ensures moved == i * n ==> moved + n == (i + 1) * n
  {
    RemainderUnique(n, n, 1, 0);
    SumWhole(moved, n, n);
    Successor(i, n);
  }

  lemma Successor(i: nat, n: nat)
    ensures (i + 1) * n == i * n + n
  {
  }

  // ---- the Opus record loop

  /** A stateful codec: what it makes of its latest input depends on all inputs so far. */
  type Codec = seq<seq<byte>> -> Option<seq<byte>>

  /** The encoder is given 8190 bytes to write into. */
  ghost predicate FitsPacket(encode: Codec) {
    forall h :: encode(h).Some? ==> |encode(h).value| <= Framing.MAX_PACKET
  }

  /** The packets, whether all went well, how many bytes were encoded, and all the encoder
      has been given by then. */
  datatype Encoded = Encoded(packets: seq<seq<byte>>, ok: bool, used: nat, history: seq<seq<byte>>)

  /** What an encoder that has been given `history` makes of the whole buffers of `data`,
      up to the first that is not encoded. */
  function EncodeBlocks(encode: Codec, history: seq<seq<byte>>, data: seq<byte>, n: nat): (r: Encoded)
    requires n > 0
    ensures r.used <= |data|
    decreases |data|
  {
    if |data| < n then Encoded([], true, 0, history)
    else
      var history' := history + [data[..n]];
      match encode(history')
      case None => Encoded([], false, n, history')
      case Some(packet) =>
        var r := EncodeBlocks(encode, history', data[n..], n);
        Encoded([packet] + r.packets, r.ok, n + r.used, r.history)
  }

  lemma {:induction false} EncodedFit(encode: Codec, history: seq<seq<byte>>, data: seq<byte>, n: nat)
    requires n > 0 && FitsPacket(encode)
    ensures Framing.Fit(EncodeBlocks(encode, history, data, n).packets)
    decreases |data|
  {
    if |data| >= n {
      EncodedFit(encode, history + [data[..n]], data[n..], n);
    }
  }

  /** The whole buffers of `data`, in order. */
  function Buffers(data: seq<byte>, n: nat): (r: seq<seq<byte>>)
    requires n > 0
    ensures forall i :: 0 <= i < |r| ==> |r[i]| == n
    ensures Join(r) <= data && |data| - |Join(r)| < n
    decreases |data|
  {
    if |data| < n then [] else
      assert data == data[..n] + data[n..];
      [data[..n]] + Buffers(data[n..], n)
  }

  /** The i-th packet is what the encoder makes of everything it has been given up to the i-th
      buffer, and the first buffer it makes nothing of is the last it is given. */
  ghost predicate EncodedOf(encode: Codec, history: seq<seq<byte>>, bs: seq<seq<byte>>,
                            packets: seq<seq<byte>>, ok: bool, history': seq<seq<byte>>)
  {
    && |packets| <= |bs| && (ok <==> |packets| == |bs|)
    && (forall i :: 0 <= i < |packets| ==> encode(history + bs[..i + 1]) == Some(packets[i]))
    && (!ok ==> encode(history + bs[..|packets| + 1]) == None)
    && history' == history + bs[..|packets| + if ok then 0 else 1]
  }

  lemma PrefixShifts(history: seq<seq<byte>>, b: seq<byte>, bs: seq<seq<byte>>, k: nat)
    requires k <= |bs|
    ensures history + ([b] + bs)[..k + 1] == (history + [b]) + bs[..k]
  {
    assert ([b] + bs)[..k + 1] == [b] + bs[..k];
  }

  lemma EncodedCons(encode: Codec, history: seq<seq<byte>>, b: seq<byte>, bs: seq<seq<byte>>, p: seq<byte>,
                    packets: seq<seq<byte>>, ok: bool, history': seq<seq<byte>>)
    requires encode(history + [b]) == Some(p) && EncodedOf(encode, history + [b], bs, packets, ok, history')
    ensures EncodedOf(encode, history, [b] + bs, [p] + packets, ok, history')
  {
    forall i | 0 <= i < |packets| + 1
      ensures encode(history + ([b] + bs)[..i + 1]) == Some(([p] + packets)[i])
    {
      PrefixShifts(history, b, bs, i);
      if i == 0 {
        assert (history + [b]) + bs[..0] == history + [b];
      } else {
        assert encode((history + [b]) + bs[..i - 1 + 1]) == Some(packets[i - 1]);
      }
    }
    PrefixShifts(history, b, bs, |packets|);
    if !ok {
      PrefixShifts(history, b, bs, |packets| + 1);
    }
  }

  /** Encoding, buffer by buffer. */
  lemma {:induction false} EncodesEachBuffer(encode: Codec, history: seq<seq<byte>>, data: seq<byte>, n: nat)
    requires n > 0
    ensures var r := EncodeBlocks(encode, history, data, n);
            EncodedOf(encode, history, Buffers(data, n), r.packets, r.ok, r.history)
    decreases |data|
  {
    if |data| < n {
      EncodedNone(encode, history);
    } else {
      var first, bs := data[..n], Buffers(data[n..], n);
      EncodesEachBuffer(encode, history + [first], data[n..], n);
      hide EncodedOf;
      match encode(history + [first])
      case None =>
        EncodedFails(encode, history, first, bs);
      case Some(p) =>
        var r := EncodeBlocks(encode, history + [first], data[n..], n);
        EncodedCons(encode, history, first, bs, p, r.packets, r.ok, r.history);
    }
  }

  lemma EncodedNone(encode: Codec, history: seq<seq<byte>>)
    ensures EncodedOf(encode, history, [], [], true, history)
  {
    assert history + [] == history;
  }

  lemma EncodedFails(encode: Codec, history: seq<seq<byte>>, b: seq<byte>, bs: seq<seq<byte>>)
    requires encode(history + [b]) == None
    ensures EncodedOf(encode, history, [b] + bs, [], false, history + [b])
  {
    assert ([b] + bs)[..1] == [b];
  }

  /** As many bytes are used as make up the buffers the encoder was given. */
  lemma {:induction false} EncodesUsed(encode: Codec, history: seq<seq<byte>>, data: seq<byte>, n: nat)
    requires n > 0
    ensures var r := EncodeBlocks(encode, history, data, n);
            |history| <= |r.history| && r.used == (|r.history| - |history|) * n
    decreases |data|
  {
    if |data| >= n && encode(history + [data[..n]]).Some? {
      EncodesUsed(encode, history + [data[..n]], data[n..], n);
      var r := EncodeBlocks(encode, history + [data[..n]], data[n..], n);
      Successor(|r.history| - |history| - 1, n);
    }
  }

  /** What an Opus drain sends is read back packet by packet, and then the stream ends. */
  lemma OpusRelay(encode: Codec, history: seq<seq<byte>>, data: seq<byte>, n: nat, rounds: nat)
    requires n > 0 && FitsPacket(encode)
    requires |EncodeBlocks(encode, history, data, n).packets| < rounds
    ensures var packets := EncodeBlocks(encode, history, data, n).packets;
            Framing.Parse(Framing.FrameAll(packets), rounds) == (packets, Framing.Ended, [])
  {
    var packets := EncodeBlocks(encode, history, data, n).packets;
    EncodedFit(encode, history, data, n);
    Framing.RoundTrip(packets, [], rounds);
    assert Framing.Parse([], rounds - |packets|) == ([], Framing.Ended, []);
    assert Framing.FrameAll(packets) + [] == Framing.FrameAll(packets) && packets + [] == packets;
  }

  /** The same over datagrams, one packet each, of which the network may lose, repeat and
      reorder any: what arrives is read back packet by packet, and then the end is seen. */
  lemma OpusRelayOverDatagrams(encode: Codec, history: seq<seq<byte>>, data: seq<byte>, n: nat,
                               arriving: seq<seq<byte>>, tmp: seq<byte>, rounds: nat)
    requires n > 0 && FitsPacket(encode) && |tmp| == 8192
    requires forall i :: 0 <= i < |arriving| ==> arriving[i] in EncodeBlocks(encode, history, data, n).packets
    requires |arriving| < rounds
    ensures Datagrams.Receive(tmp, None, Datagrams.Frames(arriving), rounds)
            == Datagrams.Received(arriving, Datagrams.Disconnected, None, [])
  {
    EncodedFit(encode, history, data, n);
    hide EncodeBlocks, FitsPacket;
    Datagrams.OpusSessionEnds(tmp, arriving, [], rounds);
  }

  /** One encoder across drains: encoding whole buffers and then more, with the history
      carried over, is encoding all of them at once. */
  lemma {:induction false} EncodesAcross(encode: Codec, history: seq<seq<byte>>, first: seq<byte>, more: seq<byte>, n: nat)
    requires n > 0 && |first| % n == 0
    ensures var a := EncodeBlocks(encode, history, first, n);
            var b := EncodeBlocks(encode, a.history, more, n);
            EncodeBlocks(encode, history, first + more, n)
            == if a.ok then Encoded(a.packets + b.packets, b.ok, |first| + b.used, b.history) else a
    decreases |first|
  {
    if |first| < n {
      RemainderUnique(|first|, n, 0, |first|);
      assert first + more == more;
      var b := EncodeBlocks(encode, history, more, n);
      assert [] + b.packets == b.packets;
    } else {
      var history' := history + [first[..n]];
      assert (first + more)[..n] == first[..n] && (first + more)[n..] == first[n..] + more;
      if encode(history').Some? {
        RemainderUnique(n, n, 1, 0);
        SumWhole(|first|, n, n);
        EncodesAcross(encode, history', first[n..], more, n);
        var p, a := encode(history').value, EncodeBlocks(encode, history', first[n..], n);
        var b := EncodeBlocks(encode, a.history, more, n);
        assert [p] + (a.packets + b.packets) == ([p] + a.packets) + b.packets;
      }
    }
  }

  lemma {:induction false} FrameAllSnoc(packets: seq<seq<byte>>, p: seq<byte>)
    ensures Framing.FrameAll(packets + [p]) == Framing.FrameAll(packets) + Framing.Frame(p)
  {
    if packets == [] {
      assert (packets + [p])[1..] == [];
    } else {
      assert (packets + [p])[1..] == packets[1..] + [p];
      FrameAllSnoc(packets[1..], p);
    }
  }

  /** The record loop's own state in the middle of a drain that found the encoder with
      `before`: what is encoded so far and what is still to be encoded make up the whole. */
  ghost predicate EncodingSoFar(encode: Codec, before: seq<seq<byte>>, newest: seq<byte>, n: nat, sent: nat,
                                history: seq<seq<byte>>, packets: seq<seq<byte>>)
    requires n > 0
  {
    && sent <= |newest|
    && var whole, rest := EncodeBlocks(encode, before, newest, n), EncodeBlocks(encode, history, newest[sent..], n);
       whole == Encoded(packets + rest.packets, rest.ok, sent + rest.used, rest.history)
  }

  lemma EncodesFurther(encode: Codec, before: seq<seq<byte>>, newest: seq<byte>, n: nat, sent: nat,
                       history: seq<seq<byte>>, packets: seq<seq<byte>>)
    requires n > 0 && EncodingSoFar(encode, before, newest, n, sent, history, packets) && sent + n <= |newest|
    ensures var history' := history + [newest[sent..sent + n]];
            match encode(history')
            case None => EncodeBlocks(encode, before, newest, n) == Encoded(packets, false, sent + n, history')
            case Some(p) => EncodingSoFar(encode, before, newest, n, sent + n, history', packets + [p])
  {
    var history' := history + [newest[sent..sent + n]];
    assert newest[sent..][..n] == newest[sent..sent + n] && newest[sent..][n..] == newest[sent + n..];
    if encode(history').None? {
      assert packets + [] == packets;
    } else {
      var p, rest := encode(history').value, EncodeBlocks(encode, history', newest[sent + n..], n);
      assert packets + ([p] + rest.packets) == (packets + [p]) + rest.packets;
    }
  }

  lemma EncodesAll(encode: Codec, before: seq<seq<byte>>, newest: seq<byte>, n: nat, sent: nat,
                   history: seq<seq<byte>>, packets: seq<seq<byte>>)
    requires n > 0 && EncodingSoFar(encode, before, newest, n, sent, history, packets) && |newest| - sent < n
    ensures EncodeBlocks(encode, before, newest, n) == Encoded(packets, true, sent, history)
  {
    assert packets + [] == packets;
  }

  /** The packet, put behind its length in the 8192-byte buffer, goes out in one write. */
  method SendPacket(buf: array<byte>, packet: seq<byte>, pipe: Pipe)
    requires buf.Length == 8192 && |packet| <= Framing.MAX_PACKET
    modifies buf, pipe
    ensures pipe.bytes == old(pipe.bytes) + Framing.Frame(packet)
  {
    CopyInto(buf, 2, packet);
    CopyInto(buf, 0, Framing.ToBigEndian(|packet|));
    assert buf[..2 + |packet|] == Framing.Frame(packet);
    pipe.WriteAll(buf[..2 + |packet|]);
  }

  /** The inner loop of handle_opus_record_stream, with no capture in between: the whole
      buffers in the newest max_bufsize bytes are encoded, framed and sent, oldest first,
      up to the first that is not encoded. The encoder outlives the drain: it has been
      given `heard` before and `heard'` after. */
  method DrainOpus(stream: AwStream, tmp: array<byte>, buf: array<byte>, encode: Codec, heard: seq<seq<byte>>, pipe: Pipe)
    returns (ok: bool, heard': seq<seq<byte>>)
    requires stream.Valid() && tmp != stream.ringbuf.data && buf != stream.ringbuf.data && tmp != buf
    requires 0 < tmp.Length <= stream.maxBufsize as int && buf.Length == 8192
    requires FitsPacket(encode)
    modifies stream.ringbuf`head, tmp, buf, pipe
    ensures stream.Valid()
    ensures var newest := DropQueue.Newest(old(stream.Queue()), stream.maxBufsize as nat);
            var r := EncodeBlocks(encode, heard, newest, tmp.Length);
            && ok == r.ok && heard' == r.history
            && pipe.bytes == old(pipe.bytes) + Framing.FrameAll(r.packets)
            && DropQueue.Newest(stream.Queue(), stream.maxBufsize as nat) == newest[r.used..]
  {
    hide DropQueue.PopBackFrom, DropQueue.Newest, Drained, AwStream.Queue, AwStream.Valid, EncodeBlocks, EncodingSoFar, FitsPacket, Framing.Frame;
    var bufsize, window := tmp.Length as size_t, stream.maxBufsize;
    ghost var newest, before := DropQueue.Newest(stream.Queue(), window as nat), pipe.bytes;
    ghost var sent, packets := 0, [];
    heard' := heard;
    DrainStarts(stream.Queue(), tmp.Length, window as nat);
    EncodesFromStart(encode, heard, newest, tmp.Length);
    var peek := stream.RecordPeek();
    while peek >= bufsize
      invariant stream.Valid() && peek as int == |stream.Queue()|
      invariant sent <= |newest| && EncodingSoFar(encode, heard, newest, tmp.Length, sent, heard', packets)
      invariant pipe.bytes == before + Framing.FrameAll(packets)
      invariant Drained(stream.Queue(), newest, sent, tmp.Length, window as nat)
      decreases |newest| - sent
    {
      DrainStep(stream.Queue(), newest, sent, tmp.Length, window as nat);
      EncodesFurther(encode, heard, newest, tmp.Length, sent, heard', packets);
      var read := stream.RecordRead(tmp, bufsize);
      heard' := heard' + [tmp[..read]];
      sent := sent + tmp.Length;
      var encoded := encode(heard');
      if encoded.None? {
        DrainedMeans(stream.Queue(), newest, sent, tmp.Length, window as nat);
        return false, heard';
      }
      var packet := encoded.value;
      PacketFits(encode, heard');
      SendPacket(buf, packet, pipe);
      FrameAllSnoc(packets, packet);
      packets := packets + [packet];
      peek := stream.RecordPeek();
    }
    DrainedMeans(stream.Queue(), newest, sent, tmp.Length, window as nat);
    EncodesAll(encode, heard, newest, tmp.Length, sent, heard', packets);
    ok := true;
  }

  lemma EncodesFromStart(encode: Codec, heard: seq<seq<byte>>, newest: seq<byte>, n: nat)
    requires n > 0
    ensures newest[0..] == newest && EncodingSoFar(encode, heard, newest, n, 0, heard, [])
  {
    assert [] + EncodeBlocks(encode, heard, newest, n).packets == EncodeBlocks(encode, heard, newest, n).packets;
  }

  lemma PacketFits(encode: Codec, history: seq<seq<byte>>)
    requires FitsPacket(encode) && encode(history).Some?
    ensures |encode(history).value| <= Framing.MAX_PACKET
  {
  }

  // ---- the Opus playback loop

  /** The queue after the decoded packets are offered to the ring one by one, up to the
      first that is not decoded. */
  function PlayPackets(decode: Codec, history: seq<seq<byte>>, q: seq<byte>, limit: nat, packets: seq<seq<byte>>): (seq<byte>, bool)
    decreases |packets|
  {
    if packets == [] then (q, true)
    else
      var history' := history + [packets[0]];
      match decode(history')
      case None => (q, false)
      case Some(pcm) => PlayPackets(decode, history', Offer(q, limit, pcm), limit, packets[1..])
  }

  datatype PlayEnd = Terminated | StreamEnded | PacketTooLong | NotDecoded

  function EndOf(ending: Framing.Ending, decoded: bool): PlayEnd {
    if !decoded then NotDecoded
    else match ending case Ended => StreamEnded case TooLong => PacketTooLong case Stopped => Terminated
  }

  /** The queue and the ending that `rounds` rounds of the Opus playback loop come to:
      exactly the packets of the stream are decoded, in order, and offered to the ring. */
  ghost function PlayGoal(decode: Codec, history: seq<seq<byte>>, q: seq<byte>, limit: nat, bytes: seq<byte>, rounds: nat): (seq<byte>, PlayEnd)
  {
    var (packets, ending, _) := Framing.Parse(bytes, rounds);
    var (q', decoded) := PlayPackets(decode, history, q, limit, packets);
    (q', EndOf(ending, decoded))
  }

  /** The decoded samples go to the ring when they fit. */
  method PlayPcm(stream: AwStream, pcm: seq<byte>)
    requires stream.Valid() && |pcm| < 0x1_0000_0000
    modifies stream.ringbuf, stream.ringbuf.data
    ensures stream.Valid() && stream.Queue() == Offer(old(stream.Queue()), stream.ringbuf.mask as nat, pcm)
  {
    hide AwStream.Queue, AwStream.Valid, DropQueue.Push, Offer;
    var peek := stream.PlaybackPeek();
    OfferIsPush(stream.Queue(), stream.ringbuf.mask as nat, pcm);
    if peek as int >= |pcm| {
      var written := stream.PlaybackWrite(pcm);
    }
  }

  /** handle_opus_playback_stream, going round `rounds` times before it is told to stop and
      the device taking nothing meanwhile. */
  method PlayOpus(stream: AwStream, pipe: Pipe, decode: Codec, rounds: nat) returns (end: PlayEnd)
    requires stream.Valid()
    requires forall h :: decode(h).Some? ==> |decode(h).value| < 0x1_0000_0000
    modifies stream.ringbuf, stream.ringbuf.data, pipe
    ensures stream.Valid()
    ensures (stream.Queue(), end)
            == PlayGoal(decode, [], old(stream.Queue()), stream.ringbuf.mask as nat, old(pipe.bytes), rounds)
  {
    hide AwStream.Queue, AwStream.Valid, Framing.FromBigEndian, Offer, PlayGoal;
    ghost var goal := PlayGoal(decode, [], stream.Queue(), stream.ringbuf.mask as nat, pipe.bytes, rounds);
    var history := [];
    var i := 0;
    while i < rounds
      invariant i <= rounds && stream.Valid()
      invariant PlayGoal(decode, history, stream.Queue(), stream.ringbuf.mask as nat, pipe.bytes, rounds - i) == goal
    {
      ghost var bytes := pipe.bytes;
      GoalStep(decode, history, stream.Queue(), stream.ringbuf.mask as nat, bytes, rounds - i);
      var ok, head := pipe.ReadExact(2);
      if !ok {
        return StreamEnded;
      }
      var length := Framing.FromBigEndian(head);
      if length > Framing.MAX_PACKET {
        return PacketTooLong;
      }
      var data;
      ok, data := pipe.ReadExact(length);
      if !ok {
        return StreamEnded;
      }
      assert data == bytes[2..2 + length] && pipe.bytes == bytes[2 + length..];
      history := history + [data];
      var decoded := decode(history);
      if decoded.None? {
        return NotDecoded;
      }
      PlayPcm(stream, decoded.value);
      i := i + 1;
    }
    GoalAtStop(decode, history, stream.Queue(), stream.ringbuf.mask as nat, pipe.bytes);
    end := Terminated;
  }

  lemma GoalAtStop(decode: Codec, history: seq<seq<byte>>, q: seq<byte>, limit: nat, bytes: seq<byte>)
    ensures PlayGoal(decode, history, q, limit, bytes, 0) == (q, Terminated)
  {
  }

  /** One round, in terms of what comes first on the stream. */
  lemma GoalStep(decode: Codec, history: seq<seq<byte>>, q: seq<byte>, limit: nat, bytes: seq<byte>, rounds: nat)
    requires rounds > 0
    ensures var goal := PlayGoal(decode, history, q, limit, bytes, rounds);
            match Framing.ParseOne(bytes)
            case EndOfStream => goal == (q, StreamEnded)
            case Oversized => goal == (q, PacketTooLong)
            case Packet(p, rest) =>
              match decode(history + [p])
              case None => goal == (q, NotDecoded)
              case Some(pcm) => goal == PlayGoal(decode, history + [p], Offer(q, limit, pcm), limit, rest, rounds - 1)
  {
    hide Framing.ParseOne, Offer;
    if Framing.ParseOne(bytes).Packet? {
      var (ps, ending, left) := Framing.Parse(Framing.ParseOne(bytes).rest, rounds - 1);
      assert ([Framing.ParseOne(bytes).packet] + ps)[1..] == ps;
    }
  }

  /** Packets after one that is not decoded are not played, and after decoded ones the next
      is decoded with all before it and its samples appended whole when they fit, else lost. */
  lemma {:induction false} PlaysOneMore(decode: Codec, history: seq<seq<byte>>, q: seq<byte>, limit: nat,
                                        packets: seq<seq<byte>>, p: seq<byte>)
    ensures var (r, ok) := PlayPackets(decode, history, q, limit, packets);
            PlayPackets(decode, history, q, limit, packets + [p]) ==
            if !ok then (r, false)
            else match decode(history + packets + [p])
              case None => (r, false)
              case Some(pcm) => (if |r| + |pcm| <= limit then r + pcm else r, true)
    decreases |packets|
  {
    if packets == [] {
      assert [p][1..] == [] && [] + [p] == [p] && history + [] == history;
    } else {
      var history' := history + [packets[0]];
      assert (packets + [p])[0] == packets[0] && (packets + [p])[1..] == packets[1..] + [p];
      assert history' + packets[1..] == history + packets;
      match decode(history')
      case None =>
      case Some(pcm) => PlaysOneMore(decode, history', Offer(q, limit, pcm), limit, packets[1..], p);
    }
  }

  /** Playing packets only appends to the queue, each packet's samples whole or not at all,
      never beyond the room there is. */
  lemma {:induction false} PlayExtends(decode: Codec, history: seq<seq<byte>>, q: seq<byte>, limit: nat,
                                       packets: seq<seq<byte>>, frame: nat)
    requires frame > 0 && |q| <= limit
    requires forall h :: decode(h).Some? ==> |decode(h).value| % frame == 0
    ensures var r := PlayPackets(decode, history, q, limit, packets).0;
            q <= r && |r| <= limit && (|q| % frame == 0 ==> |r| % frame == 0)
    decreases |packets|
  {
    if packets != [] {
      var history' := history + [packets[0]];
      if decode(history').Some? {
        var pcm := decode(history').value;
        OfferAligned(q, limit, pcm, frame);
        PlayExtends(decode, history', Offer(q, limit, pcm), limit, packets[1..], frame);
      }
    }
  }

  /** From one ring to the other: when what an Opus drain sent is all that arrives, the
      playback loop decodes exactly the packets encoded, in order, and then sees the end. */
  lemma OpusEndToEnd(encode: Codec, sent: seq<seq<byte>>, decode: Codec, heard: seq<seq<byte>>,
                     data: seq<byte>, n: nat, q: seq<byte>, limit: nat, rounds: nat)
    requires n > 0 && FitsPacket(encode)
    requires |EncodeBlocks(encode, sent, data, n).packets| < rounds
    ensures var packets := EncodeBlocks(encode, sent, data, n).packets;
            var (q', decoded) := PlayPackets(decode, heard, q, limit, packets);
            PlayGoal(decode, heard, q, limit, Framing.FrameAll(packets), rounds)
            == (q', if decoded then StreamEnded else NotDecoded)
  {
    OpusRelay(encode, sent, data, n, rounds);
    hide EncodeBlocks, PlayPackets, Framing.FrameAll;
  }

  lemma OfferIsPush(q: seq<byte>, limit: nat, b: seq<byte>)
    requires |q| <= limit
    ensures Offer(q, limit, b) == if |b| <= limit - |q| then DropQueue.Push(q, limit, b) else q
  {
  }
}
