/** The ring buffer as two threads use it: one producer and one consumer, each a
    program counter over the loads, copies and stores of libaudiowire/src/ringbuf.c
    behind the guard its caller puts in front. One step is one load or pair of
    loads of an estimate, one memcpy, or one store of an index; any interleaving
    of steps is allowed. A load of the index a side owns is taken in the same step
    as the load of the other side's index. */
module Spsc {
  import opened Bits
  import opened Sequences
  import opened Circular

  /** `window` is max_bufsize, `cap` the size of the array, `frame` the bytes of one frame. */
  datatype Config = Config(cap: nat, frame: nat, window: nat)

  ghost predicate Configured(c: Config) {
    && IsPow2(c.cap) && 2 <= c.cap <= MAX_CAPACITY
    && 0 < c.frame && c.frame % 2 == 0
    && c.window <= c.cap
  }

  datatype Producer =
    | PIdle
    | PPeekCompare(n: nat)
    | PPeekValue(n: nat, straight: bool)
    | PReady(n: nat)
    | PPushCompare(buf: seq<byte>)
    | PPushValue(buf: seq<byte>, straight: bool)
    | PResetTail(buf: seq<byte>)
    | PResetHead(buf: seq<byte>)
    | PResetCopy(buf: seq<byte>)
    | PDropOldest(buf: seq<byte>, excess: nat)
    | PCopyChunk(buf: seq<byte>, off: nat, at: nat)
    | PPublishTail(buf: seq<byte>, off: nat, at: nat, len: nat)

  datatype Consumer =
    | CIdle
    | CPeekCompare(n: nat)
    | CPeekValue(n: nat, straight: bool)
    | CPopCompare(n: nat)
    | CPopValue(n: nat, straight: bool)
    | CSkip(n: nat, diff: nat, m: nat)
    | CCopyChunk(n: nat, m: nat, acc: seq<byte>, at: nat, start: nat)
    | CPublishHead(n: nat, m: nat, acc: seq<byte>, at: nat, len: nat, start: nat)

  /** What one attempt of the consumer came to: `Miss` when its guard failed, else
      the bytes copied out, with the position of the first in the accepted stream. */
  datatype Out = Miss(n: nat) | Block(n: nat, pos: nat, bytes: seq<byte>)

  /** The shared ring and both sides. `read` and `written` count the bytes ever
      passed by `head` and `tail`; `stream` is every byte of every push whose guard
      passed; `outs` is what the consumer obtained. These four record history only. */
  datatype State = State(
    data: seq<byte>, head: nat, tail: nat,
    p: Producer, k: Consumer,
    read: nat, written: nat, stream: seq<byte>, outs: seq<Out>)

  /** A move of one side. The arguments are used only where the side starts an
      attempt (`n`) or, its guard passed, supplies the bytes to push (`buf`). */
  datatype Event = Produce(n: nat, buf: seq<byte>) | Consume(n: nat)

  function Monus(a: nat, b: nat): nat {
    if a < b then 0 else a - b
  }

  function Masked(x: nat, cap: nat): nat
    requires cap > 0
  {
    BitAnd(x, cap - 1)
  }

  /** The value of a `size_t` subtraction, which wraps below zero. */
  function Unsigned(x: int): nat {
    x % 0x1_0000_0000_0000_0000
  }

  /** ringbuf_available after its comparison came out as `straight`. */
  function AvailableValue(cap: nat, straight: bool, head: nat, tail: nat): nat {
    Unsigned(if straight then head - tail - 1 else cap - tail + head - 1)
  }

  /** ringbuf_remaining after its comparison came out as `straight`. */
  function RemainingValue(cap: nat, straight: bool, head: nat, tail: nat): nat {
    Unsigned(if straight then tail - head else cap - head + tail)
  }

  function Slice(s: seq<byte>, from: nat, len: nat): seq<byte> {
    if from + len <= |s| then s[from..from + len] else []
  }

  function Place(s: seq<byte>, at: nat, chunk: seq<byte>): seq<byte> {
    if at + |chunk| <= |s| then Overlay(s, at, chunk) else s
  }

  function StartCopy(buf: seq<byte>, tail: nat): Producer {
    if buf == [] then PIdle else PCopyChunk(buf, 0, tail)
  }

  function ProducerStep(c: Config, s: State, n: nat, buf: seq<byte>): State
    requires c.cap > 0
  {
    match s.p
    case PIdle => s.(p := PPeekCompare(n))
    case PPeekCompare(m) => s.(p := PPeekValue(m, s.head > s.tail))
    case PPeekValue(m, straight) =>
      s.(p := if AvailableValue(c.cap, straight, s.head, s.tail) >= m then PReady(m) else PIdle)
    case PReady(m) => if |buf| == m then s.(p := PPushCompare(buf), stream := s.stream + buf) else s
    case PPushCompare(b) => s.(p := PPushValue(b, s.head > s.tail))
    case PPushValue(b, straight) =>
      var available := AvailableValue(c.cap, straight, s.head, s.tail);
      s.(p := if |b| >= c.cap - 1 then PResetTail(b)
              else if |b| > available then PDropOldest(b, |b| - available)
              else StartCopy(b, s.tail))
    case PResetTail(b) => s.(tail := 0, p := PResetHead(b))
    case PResetHead(b) => s.(head := 1, p := PResetCopy(b))
    case PResetCopy(b) => s.(data := Place(s.data, 1, Slice(b, Monus(|b|, c.cap - 1), c.cap - 1)), p := PIdle)
    case PDropOldest(b, excess) =>
      s.(head := Masked(s.head + excess, c.cap), read := s.read + excess, p := StartCopy(b, s.tail))
    case PCopyChunk(b, off, at) =>
      var len := Min(Monus(c.cap, at), Monus(|b|, off));
      if len == 0 then s.(p := PIdle)
      else s.(data := Place(s.data, at, Slice(b, off, len)), p := PPublishTail(b, off, at, len))
    case PPublishTail(b, off, at, len) =>
      var tail' := Masked(at + len, c.cap);
      s.(tail := tail', written := s.written + len,
         p := if off + len < |b| then PCopyChunk(b, off + len, tail') else PIdle)
  }

  function StartRead(s: State, n: nat, m: nat): State {
    if m == 0 then s.(outs := s.outs + [Block(n, s.read, [])], k := CIdle)
    else s.(k := CCopyChunk(n, m, [], s.head, s.read))
  }

  function ConsumerStep(c: Config, s: State, n: nat): State
    requires c.cap > 0
  {
    match s.k
    case CIdle => s.(k := CPeekCompare(n))
    case CPeekCompare(m) => s.(k := CPeekValue(m, s.head <= s.tail))
    case CPeekValue(m, straight) =>
      if RemainingValue(c.cap, straight, s.head, s.tail) >= m then s.(k := CPopCompare(m))
      else s.(k := CIdle, outs := s.outs + [Miss(m)])
    case CPopCompare(m) => s.(k := CPopValue(m, s.head <= s.tail))
    case CPopValue(m, straight) =>
      var remaining := RemainingValue(c.cap, straight, s.head, s.tail);
      if remaining > c.window then s.(k := CSkip(m, remaining - c.window, Min(m, remaining)))
      else StartRead(s, m, Min(m, remaining))
    case CSkip(m, diff, total) =>
      StartRead(s.(head := Masked(s.head + diff, c.cap), read := s.read + diff), m, total)
    case CCopyChunk(m, total, acc, at, start) =>
      var len := Min(Monus(c.cap, at), Monus(total, |acc|));
      if len == 0 then s.(k := CIdle)
      else s.(k := CPublishHead(m, total, acc + Slice(s.data, at, len), at, len, start))
    case CPublishHead(m, total, acc, at, len, start) =>
      var s' := s.(head := Masked(at + len, c.cap), read := s.read + len);
      if |acc| < total then s'.(k := CCopyChunk(m, total, acc, s'.head, start))
      else s'.(k := CIdle, outs := s.outs + [Block(m, start, acc)])
  }

  function Step(c: Config, s: State, e: Event): State
    requires c.cap > 0
  {
    match e
    case Produce(n, buf) => ProducerStep(c, s, n, buf)
    case Consume(n) => ConsumerStep(c, s, n)
  }

  function Exec(c: Config, s: State, es: seq<Event>): State
    requires c.cap > 0
    decreases |es|
  {
    if es == [] then s else Exec(c, Step(c, s, es[0]), es[1..])
  }

  function Init(c: Config): State {
    State(seq(c.cap, _ => 0), 0, 0, PIdle, CIdle, 0, 0, [], [])
  }

  /** What is assumed of the callers: whole frames are offered, and the consumer asks
      for whole frames, at most max_bufsize bytes at a time. */
  predicate Permitted(c: Config, s: State, e: Event)
    requires c.frame > 0
  {
    match e
    case Produce(n, buf) => s.p.PIdle? ==> n % c.frame == 0
    case Consume(n) => s.k.CIdle? ==> n <= c.window && n % c.frame == 0
  }

  /** The second load of an estimate finds that the other side's index has wrapped
      since the comparison took the straight-line branch. */
  predicate Straddles(s: State, e: Event) {
    match e
    case Produce(_, _) => (s.p.PPeekValue? || s.p.PPushValue?) && s.p.straight && s.head <= s.tail
    case Consume(_) => (s.k.CPeekValue? || s.k.CPopValue?) && s.k.straight && s.tail < s.head
  }

  predicate Clean(c: Config, s: State, es: seq<Event>)
    requires c.cap > 0 && c.frame > 0
    decreases |es|
  {
    es == [] || (Permitted(c, s, es[0]) && !Straddles(s, es[0]) && Clean(c, Step(c, s, es[0]), es[1..]))
  }
}
