/** One audio stream: its configuration and sizes, and the callbacks and calls that
    reach its ring (internals.h, common.c, portaudio.c and pulseaudio.c of libaudiowire). */
module Streams {
  import opened Bits
  import opened Sequences
  import opened Circular
  import opened Memory
  import opened RingBuffers
  import DropQueue
  import Spsc
  import SpscFrames
  import SpscLimits

  // ---- sizes

  datatype SampleFormat = S16 | F32

  /** The fields of aw_config_t that sizes depend on, with their C types. */
  newtype uint8 = x: int | 0 <= x < 256
  newtype uint32 = x: int | 0 <= x < 0x1_0000_0000

  datatype AwConfig = AwConfig(channels: uint8, sampleFormat: SampleFormat, bufferFrames: uint32, maxBufferFrames: uint32)

  function SampleSize(format: SampleFormat): size_t {
    match format
    case S16 => 2
    case F32 => 4
  }

  /** The width the formats are named after. */
  function SampleBits(format: SampleFormat): nat {
    match format
    case S16 => 16
    case F32 => 32
  }

  function FrameSize(cfg: AwConfig): (n: size_t)
    ensures n as int * 8 == cfg.channels as int * SampleBits(cfg.sampleFormat)
    ensures n as int % 2 == 0 && n <= 1020
    ensures 0 < n <==> cfg.channels != 0
  {
    cfg.channels as size_t * SampleSize(cfg.sampleFormat)
  }

  lemma FrameTimesCount(frame: nat, count: nat)
    requires frame <= 1020 && count < 0x1_0000_0000
    ensures 0 <= count * frame < 0x1_0000_0000_0000
    ensures frame > 0 ==> (count * frame) % frame == 0 && (count * frame) / frame == count
  {
    assert count * frame <= count * 1020;
    if frame > 0 {
      RemainderUnique(count * frame, frame, count, 0);
    }
  }

  lemma ProductTimesEight(count: nat, frame: nat)
    ensures (count * frame) * 8 == count * (frame * 8)
  {
  }

  /** The bytes of `count` frames: whole samples of every channel, `count` times. */
  function FrameBufferSize(cfg: AwConfig, count: uint32): (n: size_t)
    ensures n as int < 0x1_0000_0000_0000
    ensures n as int * 8 == count as int * (cfg.channels as int * SampleBits(cfg.sampleFormat))
    ensures cfg.channels != 0 ==> n as int % FrameSize(cfg) as int == 0
    ensures cfg.channels != 0 ==> n as int / FrameSize(cfg) as int == count as int
  {
    FrameTimesCount(FrameSize(cfg) as nat, count as nat);
    ProductTimesEight(count as nat, FrameSize(cfg) as nat);
    (count as nat * FrameSize(cfg) as nat) as size_t
  }

  /** A frame is a power of two exactly when the channels are: the frame sizes for which
      SpscLimits.FramesWholeExactly promises whole frames whatever max_bufsize is. */
  lemma FrameIsPow2(cfg: AwConfig)
    requires cfg.channels != 0
    ensures IsPow2(FrameSize(cfg) as nat) <==> IsPow2(cfg.channels as nat)
  {
    var n := cfg.channels as nat;
    assert IsPow2(2 * n) <==> IsPow2(n);
    assert IsPow2(2 * (2 * n)) <==> IsPow2(2 * n);
  }

  // ---- what the guards do to the queue

  /** A push behind the guard: taken whole when it fits, else refused whole. */
  function Offer(q: seq<byte>, limit: nat, b: seq<byte>): seq<byte>
  {
    if |q| + |b| <= limit then q + b else q
  }

  /** What a pop of `n` bytes from `q` hands out and what it leaves: inside the contract
      what the queue says; outside it `window` queued bytes, then more that are not
      queued, and a queue that has lost as much of a full turn as was taken too much. */
  ghost predicate Popped(q: seq<byte>, n: nat, window: nat, capacity: nat, out: seq<byte>, rest: seq<byte>) {
    var r := DropQueue.PopBackFrom(q, n, window);
    if DropQueue.InContract(|q|, n, window) then out == r.taken && rest == r.rest
    else
      && |out| == Min(n, |q|) && window < |out| && out[..window] == r.taken
      && |rest| + (|out| - window) == capacity
  }

  /** What one round of the PulseAudio read loop meets. A peek that reports no bytes, with
      or without data, is not dropped: the loop goes round again. */
  datatype Peek =
    | PeekFails
    | Nothing
    | Hole(length: nat, dropFails: bool)
    | Data(bytes: seq<byte>, dropFails: bool)

  predicate Fails(p: Peek) {
    p.PeekFails? || (((p.Hole? && p.length > 0) || (p.Data? && p.bytes != [])) && p.dropFails)
  }

  /** The queue after the rounds up to and including the first that fails. */
  function OfferAll(q: seq<byte>, limit: nat, peeks: seq<Peek>): (seq<byte>, bool)
    decreases |peeks|
  {
    if peeks == [] then (q, true)
    else
      var q' := if peeks[0].Data? then Offer(q, limit, peeks[0].bytes) else q;
      if Fails(peeks[0]) then (q', false) else OfferAll(q', limit, peeks[1..])
  }

  class AwStream {
    const config: AwConfig
    const maxBufsize: size_t
    const ringbuf: RingBuffer

    ghost predicate Valid()
      reads ringbuf
    {
      && ringbuf.Valid()
      && maxBufsize == FrameBufferSize(config, config.maxBufferFrames)
      && maxBufsize <= ringbuf.capacity
      && (1 < ringbuf.capacity ==> ringbuf.capacity as int < 2 * maxBufsize as int)
    }

    ghost function Queue(): seq<byte>
      requires Valid()
      reads ringbuf, ringbuf.data
    {
      ringbuf.Contents()
    }

    /** Whole frames are queued. */
    ghost predicate Aligned()
      requires Valid()
      reads ringbuf, ringbuf.data
    {
      config.channels != 0 && |Queue()| % FrameSize(config) as int == 0
    }

    constructor (cfg: AwConfig)
      ensures Valid() && fresh(ringbuf) && fresh(ringbuf.data) && config == cfg && Queue() == []
    {
      var size := FrameBufferSize(cfg, cfg.maxBufferFrames);
      var ring := new RingBuffer(size);
      Pow2Bounds(size as nat, ring.capacity as nat);
      config, maxBufsize, ringbuf := cfg, size, ring;
    }

    method RecordPeek() returns (n: size_t)
      requires Valid()
      ensures n as int == |Queue()|
    {
      n := ringbuf.Remaining();
    }

    method PlaybackPeek() returns (n: size_t)
      requires Valid()
      ensures n as int + |Queue()| == ringbuf.mask as int
    {
      n := ringbuf.Available();
    }

    method RecordRead(buf: array<byte>, bufsize: size_t) returns (read: size_t)
      requires Valid() && buf != ringbuf.data && bufsize as int <= buf.Length
      modifies ringbuf`head, buf
      ensures Valid() && read as nat == Min(bufsize as nat, |old(Queue())|)
      ensures buf[read..] == old(buf[..])[read..]
      ensures Popped(old(Queue()), bufsize as nat, maxBufsize as nat, ringbuf.capacity as nat, buf[..read], Queue())
    {
      read := ringbuf.PopBackFrom(buf, bufsize, maxBufsize);
    }

    method PlaybackWrite(buf: seq<byte>) returns (written: size_t)
      requires Valid() && |buf| < 0x1_0000_0000_0000_0000
      modifies ringbuf, ringbuf.data
      ensures Valid() && written as int == |buf|
      ensures Queue() == DropQueue.Push(old(Queue()), ringbuf.mask as nat, buf)
    {
      written := ringbuf.Push(buf, |buf| as size_t);
    }

    /** The push both record callbacks make behind their guard. */
    method GuardedPush(input: seq<byte>)
      requires Valid() && |input| < 0x1_0000_0000_0000_0000
      modifies ringbuf, ringbuf.data
      ensures Valid() && Queue() == Offer(old(Queue()), ringbuf.mask as nat, input)
      ensures |input| % 2 == 0 && ringbuf.capacity > 1 ==> ringbuf.head == old(ringbuf.head)
    {
      var bufsize := |input| as size_t;
      var available := ringbuf.Available();
      if available >= bufsize {
        hide IsPow2, DropQueue.Push, RingBuffer.Contents, Indices;
        DropQueue.PushDrops(Queue(), ringbuf.mask as nat, input);
        MaskIsOdd(ringbuf.capacity as nat);
        var pushed := ringbuf.Push(input, bufsize);
      }
    }

    /** The PortAudio record callback. The ring takes the frames whole or not at all, and
        `head`, which belongs to the reader, is not written. */
    method OnStreamRead(input: seq<byte>, count: uint32)
      requires Valid() && |input| == count as int * FrameSize(config) as int
      modifies ringbuf, ringbuf.data
      ensures Valid() && Queue() == Offer(old(Queue()), ringbuf.mask as nat, input)
      ensures old(Aligned()) ==> Aligned()
      ensures ringbuf.capacity > 1 ==> ringbuf.head == old(ringbuf.head)
    {
      ghost var q := Queue();
      InputSize(config, count, |input|);
      if config.channels != 0 {
        OfferAligned(q, ringbuf.mask as nat, input, FrameSize(config) as nat);
      }
      hide FrameSize, RingBuffer.Contents;
      GuardedPush(input);
    }

    /** The playback callbacks' request: the bytes when enough are queued, else silence. */
    method Serve(output: array<byte>, bufsize: size_t)
      requires Valid() && output != ringbuf.data && bufsize as int <= output.Length
      modifies ringbuf`head, output
      ensures Valid()
      ensures output[bufsize..] == old(output[bufsize..])
      ensures |old(Queue())| < bufsize as int ==>
                Queue() == old(Queue()) && output[..bufsize] == seq(bufsize as nat, _ => 0)
      ensures |old(Queue())| >= bufsize as int ==>
                Popped(old(Queue()), bufsize as nat, maxBufsize as nat, ringbuf.capacity as nat, output[..bufsize], Queue())
    {
      var remaining := ringbuf.Remaining();
      if remaining >= bufsize {
        var read := ringbuf.PopBackFrom(output, bufsize, maxBufsize);
      } else {
        CopyInto(output, 0, seq(bufsize as nat, _ => 0));
      }
    }

    /** The PortAudio playback callback. */
    method OnStreamWrite(output: array<byte>, count: uint32)
      requires Valid() && output != ringbuf.data && output.Length == count as int * FrameSize(config) as int
      modifies ringbuf`head, output
      ensures Valid()
      ensures |old(Queue())| < output.Length ==>
                Queue() == old(Queue()) && output[..] == seq(output.Length, _ => 0)
      ensures |old(Queue())| >= output.Length ==>
                Popped(old(Queue()), output.Length, maxBufsize as nat, ringbuf.capacity as nat, output[..], Queue())
      ensures old(Aligned()) && DropQueue.InContract(|old(Queue())|, output.Length, maxBufsize as nat) ==> Aligned()
    {
      InputSize(config, count, output.Length);
      if config.channels != 0 {
        PopAligned(Queue(), output.Length, maxBufsize as nat, FrameSize(config) as nat);
      }
      hide FrameSize, FrameBufferSize, RingBuffer.Contents, DropQueue.PopBackFrom, IsPow2;
      Serve(output, output.Length as size_t);
      assert output[..] == output[..output.Length];
    }

    /** The PulseAudio record callback: rounds of peek, guarded push and drop, until the
        device has nothing more or a call on it fails. */
    method OnStreamReadable(peeks: seq<Peek>) returns (ok: bool)
      requires Valid()
      requires forall i :: 0 <= i < |peeks| && peeks[i].Data? ==> |peeks[i].bytes| < 0x1_0000_0000_0000_0000
      modifies ringbuf, ringbuf.data
      ensures Valid() && (Queue(), ok) == OfferAll(old(Queue()), ringbuf.mask as nat, peeks)
    {
      hide RingBuffer.Contents, Offer;
      var i := 0;
      while i < |peeks|
        invariant i <= |peeks| && Valid()
        invariant OfferAll(Queue(), ringbuf.mask as nat, peeks[i..]) == OfferAll(old(Queue()), ringbuf.mask as nat, peeks)
      {
        assert peeks[i..][0] == peeks[i] && peeks[i..][1..] == peeks[i + 1..];
        match peeks[i] {
          case PeekFails =>
            return false;
          case Nothing =>
          case Hole(length, dropFails) =>
            if length > 0 && dropFails {
              return false;
            }
          case Data(bytes, dropFails) =>
            if bytes != [] {
              GuardedPush(bytes);
              if dropFails {
                return false;
              }
            } else {
              OfferNothing(Queue(), ringbuf.mask as nat);
            }
        }
        i := i + 1;
      }
      ok := true;
    }

    /** The PulseAudio playback callback, the device having granted `data`. */
    method OnStreamWritable(data: array<byte>)
      requires Valid() && data != ringbuf.data && data.Length < 0x1_0000_0000_0000_0000
      modifies ringbuf`head, data
      ensures Valid()
      ensures |old(Queue())| < data.Length ==>
                Queue() == old(Queue()) && data[..] == seq(data.Length, _ => 0)
      ensures |old(Queue())| >= data.Length ==>
                Popped(old(Queue()), data.Length, maxBufsize as nat, ringbuf.capacity as nat, data[..], Queue())
      ensures old(Aligned()) && DropQueue.InContract(|old(Queue())|, data.Length, maxBufsize as nat) ==>
                data.Length % FrameSize(config) as int == 0 ==> Aligned()
    {
      if config.channels != 0 && data.Length % FrameSize(config) as int == 0 {
        PopAligned(Queue(), data.Length, maxBufsize as nat, FrameSize(config) as nat);
      }
      hide FrameSize, FrameBufferSize, RingBuffer.Contents, DropQueue.PopBackFrom, IsPow2;
      Serve(data, data.Length as size_t);
      assert data[..] == data[..data.Length];
    }
  }

  /** The stream as the shared ring of module Spsc sees it. */
  function Shared(cfg: AwConfig, capacity: size_t): Spsc.Config {
    Spsc.Config(capacity as nat, FrameSize(cfg) as nat, FrameBufferSize(cfg, cfg.maxBufferFrames) as nat)
  }

  /** Whole frames on a stream's ring, in every interleaving of its two sides, if and only
      if the number of channels is a power of two or the capacity is less than one
      frame above max_bufsize. */
  lemma ChannelsKeepFramesWhole(stream: AwStream)
    requires stream.Valid() && stream.config.maxBufferFrames > 0 && stream.config.channels != 0
    ensures var c := Shared(stream.config, stream.ringbuf.capacity);
            && SpscLimits.Sized(c, FrameSize(stream.config) as nat)
            && ((IsPow2(stream.config.channels as nat)
                 || stream.ringbuf.capacity < stream.maxBufsize + FrameSize(stream.config))
                <==> forall es | Spsc.Clean(c, Spsc.Init(c), es) ::
                       SpscFrames.OutsWhole(c, Spsc.Exec(c, Spsc.Init(c), es).outs))
  {
    var cfg, c := stream.config, Shared(stream.config, stream.ringbuf.capacity);
    FrameIsPow2(cfg);
    ProductAtLeast(cfg.maxBufferFrames as nat, FrameSize(cfg) as nat);
    assert SpscLimits.Sized(c, c.frame);
    Pow2Divisors(c.cap, c.frame);
    SpscLimits.FramesWholeIff(c);
  }

  lemma ProductAtLeast(count: nat, frame: nat)
    requires count > 0
    ensures count * frame >= frame
  {
  }

  lemma Pow2Bounds(size: nat, capacity: nat)
    requires IsPow2(capacity) && (forall c: nat :: IsPow2(c) && size <= c ==> capacity <= c)
    ensures 1 < capacity ==> capacity < 2 * size
  {
    if 1 < capacity {
      assert IsPow2(capacity / 2);
    }
  }

  lemma MaskIsOdd(capacity: nat)
    requires IsPow2(capacity)
    ensures capacity > 1 ==> (capacity - 1) % 2 == 1
  {
  }

  lemma EvenProduct(count: nat, frame: nat)
    requires frame % 2 == 0
    ensures (count * frame) % 2 == 0
  {
    assert count * frame == 2 * (count * (frame / 2));
  }

  lemma InputSize(cfg: AwConfig, count: uint32, size: nat)
    requires size == count as int * FrameSize(cfg) as int
    ensures size < 0x1_0000_0000_0000 && size % 2 == 0
    ensures cfg.channels != 0 ==> size % FrameSize(cfg) as int == 0
  {
    FrameTimesCount(FrameSize(cfg) as nat, count as nat);
    EvenProduct(count as nat, FrameSize(cfg) as nat);
  }

  lemma OfferAligned(q: seq<byte>, limit: nat, b: seq<byte>, frame: nat)
    requires frame > 0 && |b| % frame == 0
    ensures |q| % frame == 0 ==> |Offer(q, limit, b)| % frame == 0
  {
    if |q| % frame == 0 {
      SumWhole(|q|, |b|, frame);
    }
  }

  /** The rounds of a PulseAudio callback only append, never beyond the limit, and keep
      whole frames whole when the fragments are whole frames. */
  lemma {:induction false} OffersExtend(q: seq<byte>, limit: nat, peeks: seq<Peek>, frame: nat)
    requires frame > 0 && |q| <= limit
    requires forall i :: 0 <= i < |peeks| && peeks[i].Data? ==> |peeks[i].bytes| % frame == 0
    ensures var r := OfferAll(q, limit, peeks).0;
            q <= r && |r| <= limit && (|q| % frame == 0 ==> |r| % frame == 0)
    decreases |peeks|
  {
    if peeks != [] {
      var q' := if peeks[0].Data? then Offer(q, limit, peeks[0].bytes) else q;
      if peeks[0].Data? {
        OfferAligned(q, limit, peeks[0].bytes, frame);
      }
      OffersExtend(q', limit, peeks[1..], frame);
    }
  }

  // ---- what the rounds come to

  /** The bytes of each round that brought any. */
  function Fragments(peeks: seq<Peek>): seq<seq<byte>> {
    if peeks == [] then []
    else (if peeks[0].Data? then [peeks[0].bytes] else []) + Fragments(peeks[1..])
  }

  /** The rounds all succeed if and only if no peek fails and no drop of a fragment or a
      hole of at least one byte does. */
  lemma {:induction false} OffersSucceed(q: seq<byte>, limit: nat, peeks: seq<Peek>)
    ensures OfferAll(q, limit, peeks).1 <==>
            forall i :: 0 <= i < |peeks| ==>
              && peeks[i] != PeekFails
              && (peeks[i].Hole? && peeks[i].length > 0 ==> !peeks[i].dropFails)
              && (peeks[i].Data? && |peeks[i].bytes| > 0 ==> !peeks[i].dropFails)
    decreases |peeks|
  {
    if peeks != [] {
      var q' := if peeks[0].Data? then Offer(q, limit, peeks[0].bytes) else q;
      OffersSucceed(q', limit, peeks[1..]);
      if !Fails(peeks[0]) {
        assert forall i :: 0 < i < |peeks| ==> peeks[i] == peeks[1..][i - 1];
      }
    }
  }

  /** Rounds after a failure do nothing, and after successful rounds they go on from there. */
  lemma {:induction false} OffersGoOn(q: seq<byte>, limit: nat, peeks: seq<Peek>, more: seq<Peek>)
    ensures var (r, ok) := OfferAll(q, limit, peeks);
            OfferAll(q, limit, peeks + more) == if ok then OfferAll(r, limit, more) else (r, false)
    decreases |peeks|
  {
    if peeks == [] {
      assert peeks + more == more;
    } else {
      assert (peeks + more)[0] == peeks[0] && (peeks + more)[1..] == peeks[1..] + more;
      OffersGoOn(if peeks[0].Data? then Offer(q, limit, peeks[0].bytes) else q, limit, peeks[1..], more);
    }
  }

  /** One more fragment after successful rounds is appended whole when it fits, else lost whole,
      whether or not the drop that follows it fails. */
  lemma OffersSnoc(q: seq<byte>, limit: nat, peeks: seq<Peek>, bytes: seq<byte>, dropFails: bool)
    requires OfferAll(q, limit, peeks).1
    ensures var r := OfferAll(q, limit, peeks).0;
            OfferAll(q, limit, peeks + [Data(bytes, dropFails)]).0 == if |r| + |bytes| <= limit then r + bytes else r
  {
    var r := OfferAll(q, limit, peeks).0;
    OffersGoOn(q, limit, peeks, [Data(bytes, dropFails)]);
    assert [Data(bytes, dropFails)][1..] == [];
  }

  /** When there is room for all fragments of successful rounds, all are queued, in order. */
  lemma {:induction false} OffersAllFit(q: seq<byte>, limit: nat, peeks: seq<Peek>)
    requires OfferAll(q, limit, peeks).1 && |q| + |Join(Fragments(peeks))| <= limit
    ensures OfferAll(q, limit, peeks).0 == q + Join(Fragments(peeks))
    decreases |peeks|
  {
    if peeks == [] {
      assert q + [] == q;
    } else {
      var p, rest := peeks[0], Fragments(peeks[1..]);
      if p.Data? {
        JoinAppends([p.bytes], rest);
        assert Join([p.bytes]) == p.bytes;
        assert (q + p.bytes) + Join(rest) == q + (p.bytes + Join(rest));
        OffersAllFit(q + p.bytes, limit, peeks[1..]);
      } else {
        assert [] + rest == rest;
        OffersAllFit(q, limit, peeks[1..]);
      }
    }
  }

  lemma OfferNothing(q: seq<byte>, limit: nat)
    ensures Offer(q, limit, []) == q
  {
  }

  /** A pop of whole frames from whole frames leaves whole frames and skips whole frames. */
  lemma PopAligned(q: seq<byte>, n: nat, window: nat, frame: nat)
    requires frame > 0 && n % frame == 0 && window % frame == 0
    ensures var r := DropQueue.PopBackFrom(q, n, window);
            |q| % frame == 0 ==>
              |r.skipped| % frame == 0 && |r.taken| % frame == 0 && |r.rest| % frame == 0
  {
    var keep := Min(|q|, window);
    if |q| % frame == 0 {
      SumWhole(|q|, keep, frame);
      SumWhole(keep, Min(n, keep), frame);
    }
  }

  /** A push that drops anything, guarded or not, leaves a queue that is not whole frames. */
  lemma DroppingTearsFrames(q: seq<byte>, capacity: nat, b: seq<byte>, frame: nat)
    requires IsPow2(capacity) && capacity > 1 && frame > 0 && frame % 2 == 0
    requires |q| < capacity && DropQueue.Push(q, capacity - 1, b) != q + b
    ensures |DropQueue.Push(q, capacity - 1, b)| % frame != 0
  {
    DropQueue.PushDrops(q, capacity - 1, b);
    MaskIsOdd(capacity);
    if (capacity - 1) % frame == 0 {
      var x := (capacity - 1) / frame;
      assert capacity - 1 == x * frame;
      EvenProduct(x, frame);
    }
  }
}
