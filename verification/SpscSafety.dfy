/** Safety of the shared ring: an invariant of every reachable state. */
module SpscSafety {
  import opened Bits
  import opened Sequences
  import opened Circular
  import opened Spsc

  // ---- the invariant, numbers first

  /** How far the array holds the stream: the published bytes and, between the
      producer's copy and its store of `tail`, the chunk just copied. */
  function Filled(s: State): nat {
    s.written + if s.p.PPublishTail? then s.p.len else 0
  }

  function Length(s: State): int {
    s.written - s.read
  }

  function Room(c: Config, s: State): int {
    c.cap - 1 - Length(s)
  }

  ghost predicate IndexInv(c: Config, s: State) {
    && |s.data| == c.cap && s.head < c.cap && s.tail < c.cap
    && s.read <= s.written && Filled(s) - s.read < c.cap
    && s.tail == Wrap(s.head + (s.written - s.read), c.cap)
  }

  /** Where the producer is, the room its push needs is there. The branches of
      ringbuf_push that store `head` are not reached. */
  ghost predicate ProducerInv(c: Config, s: State) {
    match s.p
    case PIdle => true
    case PPeekCompare(n) => n % 2 == 0
    case PPeekValue(n, straight) => n % 2 == 0 && (!straight ==> s.head <= s.tail)
    case PReady(n) => n % 2 == 0 && n <= Room(c, s)
    case PPushCompare(b) => |b| % 2 == 0 && |b| <= Room(c, s)
    case PPushValue(b, straight) => |b| % 2 == 0 && |b| <= Room(c, s) && (!straight ==> s.head <= s.tail)
    case PResetTail(_) => false
    case PResetHead(_) => false
    case PResetCopy(_) => false
    case PDropOldest(_, _) => false
    case PCopyChunk(b, off, at) => off < |b| && |b| - off <= Room(c, s) && at == s.tail
    case PPublishTail(b, off, at, len) =>
      off < |b| && |b| - off <= Room(c, s) && at == s.tail && 0 < len <= |b| - off && at + len <= c.cap
  }

  /** Where the consumer is, the bytes it is going to read are there. */
  ghost predicate ConsumerInv(c: Config, s: State) {
    match s.k
    case CIdle => true
    case CPeekCompare(n) => n <= c.window
    case CPeekValue(n, straight) => n <= c.window && (!straight ==> s.tail < s.head)
    case CPopCompare(n) => n <= c.window && n <= Length(s)
    case CPopValue(n, straight) => n <= c.window && n <= Length(s) && (!straight ==> s.tail < s.head)
    case CSkip(n, diff, m) => m == n <= c.window && 0 < diff && c.window + diff <= Length(s)
    case CCopyChunk(n, m, acc, at, start) =>
      m == n && at == s.head && |acc| < m && start + |acc| == s.read && m - |acc| <= Length(s)
    case CPublishHead(n, m, acc, at, len, start) =>
      && m == n && at == s.head && 0 < len <= |acc| <= m && at + len <= c.cap
      && start + |acc| == s.read + len && m - |acc| <= Length(s) - len
  }

  ghost predicate Core(c: Config, s: State) {
    IndexInv(c, s) && ProducerInv(c, s) && ConsumerInv(c, s)
  }

  // ---- the invariant, contents

  ghost predicate ArrayInv(data: seq<byte>, head: nat, read: nat, filled: nat, stream: seq<byte>) {
    && head <= |data| && read <= filled <= |stream| && filled - read <= |data|
    && Window(data, head, filled - read) == stream[read..filled]
  }

  /** What the running push has still to publish. */
  function Rest(p: Producer): seq<byte> {
    match p
    case PPushCompare(b) => b
    case PPushValue(b, _) => b
    case PCopyChunk(b, off, _) => if off <= |b| then b[off..] else []
    case PPublishTail(b, off, _, _) => if off <= |b| then b[off..] else []
    case _ => []
  }

  ghost predicate RestInv(p: Producer, written: nat, stream: seq<byte>) {
    written <= |stream| && stream[written..] == Rest(p)
  }

  ghost predicate Slices(bytes: seq<byte>, stream: seq<byte>, from: nat) {
    from + |bytes| <= |stream| && bytes == stream[from..from + |bytes|]
  }

  /** What the running pop has copied out so far is the stream from its start. */
  ghost predicate PopInv(k: Consumer, stream: seq<byte>) {
    match k
    case CCopyChunk(_, _, acc, _, start) => Slices(acc, stream, start)
    case CPublishHead(_, _, acc, _, _, start) => Slices(acc, stream, start)
    case _ => true
  }

  /** Blocks hold consecutive bytes of the stream, have the length asked for, and
      each begins at or after the end of the one before. `limit` bounds the last end. */
  ghost predicate OutsInv(outs: seq<Out>, stream: seq<byte>, limit: nat)
    decreases |outs|
  {
    outs == [] ||
    var init, last := outs[..|outs| - 1], outs[|outs| - 1];
    match last
    case Miss(_) => OutsInv(init, stream, limit)
    case Block(n, pos, bytes) =>
      |bytes| == n && pos + n <= limit && Slices(bytes, stream, pos) && OutsInv(init, stream, pos)
  }

  /** The position up to which blocks have been completed or skipped. */
  function Mark(k: Consumer, read: nat): nat {
    match k
    case CCopyChunk(_, _, _, _, start) => start
    case CPublishHead(_, _, _, _, _, start) => start
    case _ => read
  }

  ghost predicate Content(s: State) {
    && ArrayInv(s.data, s.head, s.read, Filled(s), s.stream)
    && RestInv(s.p, s.written, s.stream)
    && PopInv(s.k, s.stream)
    && OutsInv(s.outs, s.stream, Mark(s.k, s.read))
  }

  ghost predicate Inv(c: Config, s: State) {
    Core(c, s) && Content(s)
  }

  // ---- estimates

  lemma AvailableIsRoom(c: Config, s: State, straight: bool)
    requires Configured(c) && IndexInv(c, s)
    requires straight <==> s.head > s.tail
    ensures AvailableValue(c.cap, straight, s.head, s.tail) == Room(c, s)
  {
  }

  lemma RemainingIsLength(c: Config, s: State, straight: bool)
    requires Configured(c) && IndexInv(c, s)
    requires straight <==> s.head <= s.tail
    ensures RemainingValue(c.cap, straight, s.head, s.tail) == Length(s)
  {
  }

  lemma MultipleOfEven(n: nat, f: nat)
    requires f > 0 && f % 2 == 0 && n % f == 0
    ensures n % 2 == 0
  {
    var q, h := n / f, f / 2;
    assert n == q * f && f == 2 * h;
    assert q * (2 * h) == 2 * (q * h);
  }

  // ---- numbers: one step of the producer

  predicate Looking(p: Producer) {
    p.PIdle? || p.PPeekCompare? || p.PPeekValue? || p.PPushCompare? || p.PPushValue?
  }

  lemma ProducerBranches(c: Config, s: State, n: nat, buf: seq<byte>) returns (p': Producer)
    requires Configured(c) && IndexInv(c, s) && ProducerInv(c, s) && Looking(s.p)
    requires Permitted(c, s, Produce(n, buf)) && !Straddles(s, Produce(n, buf))
    ensures ProducerStep(c, s, n, buf) == s.(p := p')
    ensures ProducerInv(c, s.(p := p')) && Rest(p') == Rest(s.p) && !p'.PPublishTail?
  {
    p' := ProducerStep(c, s, n, buf).p;
    match s.p
    case PIdle => MultipleOfEven(n, c.frame);
    case PPeekCompare(m) =>
    case PPeekValue(m, straight) => AvailableIsRoom(c, s, straight);
    case PPushCompare(b) =>
    case PPushValue(b, straight) =>
      AvailableIsRoom(c, s, straight);
      assert c.cap % 2 == 0;
      assert |b| < c.cap - 1;
      assert b[0..] == b;
  }

  lemma CounterIgnored(c: Config, s: State, p': Producer)
    requires IndexInv(c, s) && ConsumerInv(c, s) && !s.p.PPublishTail? && !p'.PPublishTail?
    ensures IndexInv(c, s.(p := p')) && ConsumerInv(c, s.(p := p'))
  {
  }

  /** Loads and branches of the producer leave everything but its program counter alone. */
  lemma ProducerLooks(c: Config, s: State, n: nat, buf: seq<byte>)
    requires Configured(c) && Core(c, s) && Looking(s.p)
    requires Permitted(c, s, Produce(n, buf)) && !Straddles(s, Produce(n, buf))
    ensures var t := ProducerStep(c, s, n, buf);
            Core(c, t) && t == s.(p := t.p) && Rest(t.p) == Rest(s.p) && !t.p.PPublishTail?
  {
    hide ProducerInv, ConsumerInv, IndexInv, ProducerStep, Straddles, IsPow2;
    var p' := ProducerBranches(c, s, n, buf);
    CounterIgnored(c, s, p');
  }

  lemma ProducerPublishesCore(c: Config, s: State, n: nat, buf: seq<byte>)
    requires Configured(c) && Core(c, s) && s.p.PPublishTail?
    ensures s.p.off + s.p.len <= |s.p.buf|
    ensures var t := ProducerStep(c, s, n, buf);
            && Core(c, t)
            && t == s.(p := t.p, tail := t.tail, written := Filled(s))
            && Filled(t) == Filled(s)
            && Rest(t.p) == s.p.buf[s.p.off + s.p.len..]
  {
    MaskWraps(s.p.at + s.p.len, c.cap);
  }

  // ---- numbers: one step of the consumer

  lemma StartsRead(c: Config, s: State, n: nat)
    requires IndexInv(c, s) && ProducerInv(c, s) && n <= Length(s)
    ensures Core(c, StartRead(s, n, n))
  {
  }

  lemma HeadAdvances(c: Config, s: State, d: nat)
    requires Configured(c) && IndexInv(c, s) && ProducerInv(c, s) && d <= Length(s)
    ensures var t := s.(head := Masked(s.head + d, c.cap), read := s.read + d);
            && t.head == Wrap(s.head + d, c.cap)
            && IndexInv(c, t) && ProducerInv(c, t)
  {
    MaskWraps(s.head + d, c.cap);
  }

  lemma ConsumerLooks(c: Config, s: State, n: nat)
    requires Configured(c) && Core(c, s)
    requires s.k.CIdle? || s.k.CPeekCompare? || s.k.CPeekValue? || s.k.CPopCompare?
    requires Permitted(c, s, Consume(n)) && !Straddles(s, Consume(n))
    ensures var t := ConsumerStep(c, s, n);
            Core(c, t) && t == s.(k := t.k, outs := t.outs) && Mark(t.k, t.read) == s.read && PopInv(t.k, s.stream)
    ensures var t := ConsumerStep(c, s, n);
            t.outs == s.outs || (s.k.CPeekValue? && t.outs == s.outs + [Miss(s.k.n)])
  {
    if s.k.CPeekValue? {
      RemainingIsLength(c, s, s.k.straight);
    }
  }

  lemma ConsumerDecidesCore(c: Config, s: State, n: nat)
    requires Configured(c) && Core(c, s) && s.k.CPopValue? && !Straddles(s, Consume(n))
    ensures var t := ConsumerStep(c, s, n);
            && Core(c, t)
            && t == if Length(s) > c.window then s.(k := CSkip(s.k.n, Length(s) - c.window, s.k.n))
                    else StartRead(s, s.k.n, s.k.n)
  {
    RemainingIsLength(c, s, s.k.straight);
    StartsRead(c, s, s.k.n);
  }

  lemma SkipUnfolds(c: Config, s: State, n: nat)
    requires c.cap > 0 && s.k.CSkip?
    ensures ConsumerStep(c, s, n)
            == StartRead(s.(head := Masked(s.head + s.k.diff, c.cap), read := s.read + s.k.diff), s.k.n, s.k.m)
  {
  }

  lemma ConsumerSkipsCore(c: Config, s: State, n: nat)
    requires Configured(c) && Core(c, s) && s.k.CSkip?
    ensures s.k.diff <= Filled(s) - s.read < |s.data| == c.cap && s.head < |s.data|
    ensures var t := ConsumerStep(c, s, n);
            && Core(c, t)
            && t == StartRead(s.(head := Wrap(s.head + s.k.diff, c.cap), read := s.read + s.k.diff), s.k.n, s.k.n)
  {
    hide ProducerInv, ConsumerStep, StartRead, IsPow2, Masked;
    var t := s.(head := Wrap(s.head + s.k.diff, c.cap), read := s.read + s.k.diff);
    assert s.k.m == s.k.n <= Length(t) && s.k.diff <= Length(s);
    SkipUnfolds(c, s, n);
    HeadAdvances(c, s, s.k.diff);
    StartsRead(c, t, s.k.n);
  }

  lemma CopyUnfolds(c: Config, s: State, n: nat, len: nat)
    requires c.cap > 0 && s.k.CCopyChunk? && s.k.at <= c.cap && |s.k.acc| <= s.k.m
    requires len == Min(c.cap - s.k.at, s.k.m - |s.k.acc|) > 0 && s.k.at + len <= |s.data|
    ensures ConsumerStep(c, s, n)
            == s.(k := CPublishHead(s.k.n, s.k.m, s.k.acc + s.data[s.k.at..s.k.at + len], s.k.at, len, s.k.start))
  {
  }

  lemma ConsumerCopiesCore(c: Config, s: State, n: nat) returns (chunk: seq<byte>)
    requires Configured(c) && Core(c, s) && s.k.CCopyChunk?
    ensures s.head + |chunk| <= |s.data| && s.head < |s.data| && chunk == s.data[s.head..s.head + |chunk|]
    ensures s.read + |chunk| <= Filled(s) && s.k.start + |s.k.acc| == s.read
    ensures var t := ConsumerStep(c, s, n);
            Core(c, t) && t == s.(k := CPublishHead(s.k.n, s.k.m, s.k.acc + chunk, s.k.at, |chunk|, s.k.start))
  {
    hide ProducerInv, ConsumerStep, IsPow2;
    var len := Min(c.cap - s.k.at, s.k.m - |s.k.acc|);
    CopyUnfolds(c, s, n, len);
    chunk := s.data[s.head..s.head + len];
    ConsumerIgnored(c, s, ConsumerStep(c, s, n).k, s.outs);
  }

  lemma PublishUnfolds(c: Config, s: State, n: nat)
    requires c.cap > 0 && s.k.CPublishHead?
    ensures var u := s.(head := Masked(s.k.at + s.k.len, c.cap), read := s.read + s.k.len);
            ConsumerStep(c, s, n) ==
            if |s.k.acc| < s.k.m then u.(k := CCopyChunk(s.k.n, s.k.m, s.k.acc, u.head, s.k.start))
            else u.(k := CIdle, outs := s.outs + [Block(s.k.n, s.k.start, s.k.acc)])
  {
  }

  lemma ConsumerPublishesCore(c: Config, s: State, n: nat)
    requires Configured(c) && Core(c, s) && s.k.CPublishHead?
    ensures s.k.len <= Filled(s) - s.read < |s.data| && s.head < |s.data|
    ensures s.k.start + |s.k.acc| == s.read + s.k.len
    ensures var t := ConsumerStep(c, s, n);
            && Core(c, t)
            && var u := s.(head := Wrap(s.head + s.k.len, |s.data|), read := s.read + s.k.len);
            if |s.k.acc| == s.k.n then t == u.(k := CIdle, outs := s.outs + [Block(s.k.n, s.k.start, s.k.acc)])
            else t == u.(k := CCopyChunk(s.k.n, s.k.m, s.k.acc, u.head, s.k.start))
  {
    hide ProducerInv, ConsumerStep, IsPow2, Masked;
    var u := s.(head := Wrap(s.head + s.k.len, c.cap), read := s.read + s.k.len);
    PublishUnfolds(c, s, n);
    HeadAdvances(c, s, s.k.len);
    ConsumerIgnored(c, u, ConsumerStep(c, s, n).k, ConsumerStep(c, s, n).outs);
  }

  lemma ConsumerIgnored(c: Config, s: State, k': Consumer, outs': seq<Out>)
    requires IndexInv(c, s) && ProducerInv(c, s)
    ensures IndexInv(c, s.(k := k', outs := outs')) && ProducerInv(c, s.(k := k', outs := outs'))
  {
  }

  // ---- contents: blocks

  lemma SlicesPrefix(bytes: seq<byte>, stream: seq<byte>, from: nat)
    requires from <= |stream| && bytes <= stream[from..]
    ensures Slices(bytes, stream, from)
  {
  }

  lemma SlicesExtend(bytes: seq<byte>, stream: seq<byte>, from: nat, stream': seq<byte>)
    requires Slices(bytes, stream, from) && stream <= stream'
    ensures Slices(bytes, stream', from)
  {
    assert stream'[from..from + |bytes|] == stream[from..from + |bytes|];
  }

  lemma {:induction false} OutsGrow(outs: seq<Out>, stream: seq<byte>, limit: nat, stream': seq<byte>, limit': nat)
    requires OutsInv(outs, stream, limit)
    requires stream <= stream' && limit <= limit'
    ensures OutsInv(outs, stream', limit')
    decreases |outs|
  {
    if outs != [] {
      var init, last := outs[..|outs| - 1], outs[|outs| - 1];
      match last
      case Miss(_) =>
        OutsGrow(init, stream, limit, stream', limit');
      case Block(n, pos, bytes) =>
        SlicesExtend(bytes, stream, pos, stream');
        OutsGrow(init, stream, pos, stream', pos);
    }
  }

  lemma OutsMiss(outs: seq<Out>, stream: seq<byte>, limit: nat, n: nat)
    requires OutsInv(outs, stream, limit)
    ensures OutsInv(outs + [Miss(n)], stream, limit)
  {
    assert (outs + [Miss(n)])[..|outs|] == outs;
  }

  lemma OutsBlock(outs: seq<Out>, stream: seq<byte>, pos: nat, bytes: seq<byte>)
    requires OutsInv(outs, stream, pos) && Slices(bytes, stream, pos)
    ensures OutsInv(outs + [Block(|bytes|, pos, bytes)], stream, pos + |bytes|)
  {
    assert (outs + [Block(|bytes|, pos, bytes)])[..|outs|] == outs;
  }

  // ---- contents: one step of the producer

  lemma ProducerSuppliesCore(c: Config, s: State, n: nat, buf: seq<byte>)
    requires Configured(c) && Core(c, s) && s.p.PReady?
    ensures var t := ProducerStep(c, s, n, buf);
            && Core(c, t)
            && t == if |buf| == s.p.n then s.(p := PPushCompare(buf), stream := s.stream + buf) else s
  {
  }

  lemma ArrayExtends(data: seq<byte>, head: nat, read: nat, filled: nat, stream: seq<byte>, stream': seq<byte>)
    requires ArrayInv(data, head, read, filled, stream) && stream <= stream'
    ensures ArrayInv(data, head, read, filled, stream')
  {
    hide Window;
    assert stream'[read..filled] == stream[read..filled];
  }

  lemma PopExtends(k: Consumer, stream: seq<byte>, stream': seq<byte>)
    requires PopInv(k, stream) && stream <= stream'
    ensures PopInv(k, stream')
  {
    if k.CCopyChunk? || k.CPublishHead? {
      SlicesExtend(k.acc, stream, k.start, stream');
    }
  }

  lemma ProducerSupplies(c: Config, s: State, n: nat, buf: seq<byte>)
    requires Configured(c) && Inv(c, s) && s.p.PReady?
    ensures Inv(c, ProducerStep(c, s, n, buf))
  {
    hide Core, ArrayInv, PopInv, OutsInv, ProducerStep, Mark;
    ProducerSuppliesCore(c, s, n, buf);
    if |buf| == s.p.n {
      var stream := s.stream + buf;
      ArrayExtends(s.data, s.head, s.read, s.written, s.stream, stream);
      PopExtends(s.k, s.stream, stream);
      OutsGrow(s.outs, s.stream, Mark(s.k, s.read), stream, Mark(s.k, s.read));
    }
  }

  lemma SliceConcat(s: seq<byte>, a: nat, b: nat, c: nat)
    requires a <= b <= c <= |s|
    ensures s[a..c] == s[a..b] + s[b..c]
  {
  }

  lemma ArrayFills(data: seq<byte>, head: nat, read: nat, written: nat, stream: seq<byte>, chunk: seq<byte>)
    requires ArrayInv(data, head, read, written, stream) && head < |data|
    requires written - read + |chunk| <= |data| && Wrap(head + (written - read), |data|) + |chunk| <= |data|
    requires Slices(chunk, stream, written)
    ensures ArrayInv(Overlay(data, Wrap(head + (written - read), |data|), chunk), head, read, written + |chunk|, stream)
  {
    hide Window, Wrap, Overlay;
    WindowGrows(data, head, written - read, chunk);
    SliceConcat(stream, read, written, written + |chunk|);
  }

  lemma ProducerCopiesCore(c: Config, s: State, n: nat, buf: seq<byte>) returns (chunk: seq<byte>)
    requires Configured(c) && Core(c, s) && s.p.PCopyChunk?
    ensures s.p.off < |s.p.buf| && chunk <= s.p.buf[s.p.off..]
    ensures s.head < |s.data| && s.read <= s.written && Filled(s) == s.written
    ensures Wrap(s.head + Length(s), |s.data|) == s.tail && s.tail + |chunk| <= |s.data|
    ensures Length(s) + |chunk| <= |s.data|
    ensures var t := ProducerStep(c, s, n, buf);
            && Core(c, t)
            && t == s.(data := Overlay(s.data, s.tail, chunk), p := PPublishTail(s.p.buf, s.p.off, s.p.at, |chunk|))
  {
    chunk := s.p.buf[s.p.off..s.p.off + Min(c.cap - s.p.at, |s.p.buf| - s.p.off)];
  }

  lemma ProducerCopies(c: Config, s: State, n: nat, buf: seq<byte>)
    requires Configured(c) && Inv(c, s) && s.p.PCopyChunk?
    ensures Inv(c, ProducerStep(c, s, n, buf))
  {
    hide Core, PopInv, OutsInv, ArrayInv, ProducerStep, Mark;
    var chunk := ProducerCopiesCore(c, s, n, buf);
    SlicesPrefix(chunk, s.stream, s.written);
    ArrayFills(s.data, s.head, s.read, s.written, s.stream, chunk);
  }

  lemma RestShrinks(b: seq<byte>, off: nat, len: nat, stream: seq<byte>, written: nat)
    requires off + len <= |b| && written <= |stream| && stream[written..] == b[off..]
    ensures written + len <= |stream| && stream[written + len..] == b[off + len..]
  {
    assert stream[written..][len..] == stream[written + len..];
    assert b[off..][len..] == b[off + len..];
  }

  lemma ProducerPublishes(c: Config, s: State, n: nat, buf: seq<byte>)
    requires Configured(c) && Inv(c, s) && s.p.PPublishTail?
    ensures Inv(c, ProducerStep(c, s, n, buf))
  {
    hide Core, PopInv, OutsInv, ArrayInv, ProducerStep, Mark;
    ProducerPublishesCore(c, s, n, buf);
    RestShrinks(s.p.buf, s.p.off, s.p.len, s.stream, s.written);
  }

  // ---- contents: one step of the consumer

  lemma StartsReadContent(s: State, n: nat)
    requires Content(s) && Mark(s.k, s.read) == s.read
    ensures Content(StartRead(s, n, n))
  {
    hide ArrayInv, RestInv, OutsInv, Window;
    FilledInStream(s);
    if n == 0 {
      OutsBlock(s.outs, s.stream, s.read, []);
    }
  }

  lemma FilledInStream(s: State)
    requires Content(s)
    ensures s.read <= |s.stream|
  {
  }

  lemma ArrayAdvances(data: seq<byte>, head: nat, read: nat, filled: nat, stream: seq<byte>, d: nat)
    requires ArrayInv(data, head, read, filled, stream)
    requires head < |data| && d <= filled - read < |data|
    ensures ArrayInv(data, Wrap(head + d, |data|), read + d, filled, stream)
  {
    WindowAdvances(data, head, filled - read, d);
    assert stream[read..filled][d..] == stream[read + d..filled];
  }

  lemma SkipContent(s: State, d: nat)
    requires Content(s) && s.k.CSkip?
    requires s.head < |s.data| && d <= Filled(s) - s.read < |s.data|
    ensures Content(s.(head := Wrap(s.head + d, |s.data|), read := s.read + d))
  {
    hide ArrayInv, RestInv, OutsInv, Wrap;
    ArrayAdvances(s.data, s.head, s.read, Filled(s), s.stream, d);
    OutsGrow(s.outs, s.stream, s.read, s.stream, s.read + d);
  }

  lemma ConsumerSkips(c: Config, s: State, n: nat)
    requires Configured(c) && Inv(c, s) && s.k.CSkip?
    ensures Inv(c, ConsumerStep(c, s, n))
  {
    hide OutsInv, Window, StartRead, Masked;
    ConsumerSkipsCore(c, s, n);
    SkipContent(s, s.k.diff);
    StartsReadContent(s.(head := Wrap(s.head + s.k.diff, c.cap), read := s.read + s.k.diff), s.k.n);
  }

  lemma ArrayPrefix(data: seq<byte>, head: nat, read: nat, filled: nat, stream: seq<byte>, d: nat)
    requires ArrayInv(data, head, read, filled, stream)
    requires head < |data| && d <= filled - read && head + d <= |data|
    ensures Slices(data[head..head + d], stream, read)
  {
    WindowPrefix(data, head, filled - read, d);
    assert stream[read..filled][..d] == stream[read..read + d];
  }

  lemma SlicesJoin(a: seq<byte>, b: seq<byte>, stream: seq<byte>, from: nat)
    requires Slices(a, stream, from) && Slices(b, stream, from + |a|)
    ensures Slices(a + b, stream, from)
  {
  }

  lemma ConsumerCopies(c: Config, s: State, n: nat)
    requires Configured(c) && Inv(c, s) && s.k.CCopyChunk?
    ensures Inv(c, ConsumerStep(c, s, n))
  {
    hide Core, RestInv, OutsInv, ArrayInv, ConsumerStep;
    var chunk := ConsumerCopiesCore(c, s, n);
    ArrayPrefix(s.data, s.head, s.read, Filled(s), s.stream, |chunk|);
    SlicesJoin(s.k.acc, chunk, s.stream, s.k.start);
  }

  lemma ConsumerPublishes(c: Config, s: State, n: nat)
    requires Configured(c) && Inv(c, s) && s.k.CPublishHead?
    ensures Inv(c, ConsumerStep(c, s, n))
  {
    hide Core, RestInv, OutsInv, ArrayInv, ConsumerStep, Wrap;
    ConsumerPublishesCore(c, s, n);
    ArrayAdvances(s.data, s.head, s.read, Filled(s), s.stream, s.k.len);
    OutsBlock(s.outs, s.stream, s.k.start, s.k.acc);
  }

  lemma ConsumerLooksOn(c: Config, s: State, n: nat)
    requires Configured(c) && Inv(c, s)
    requires s.k.CIdle? || s.k.CPeekCompare? || s.k.CPeekValue? || s.k.CPopCompare?
    requires Permitted(c, s, Consume(n)) && !Straddles(s, Consume(n))
    ensures Inv(c, ConsumerStep(c, s, n))
  {
    hide Core, RestInv, OutsInv, ArrayInv, ConsumerStep;
    ConsumerLooks(c, s, n);
    if s.k.CPeekValue? {
      OutsMiss(s.outs, s.stream, s.read, s.k.n);
    }
  }

  lemma ConsumerDecides(c: Config, s: State, n: nat)
    requires Configured(c) && Inv(c, s) && s.k.CPopValue? && !Straddles(s, Consume(n))
    ensures Inv(c, ConsumerStep(c, s, n))
  {
    hide Core, RestInv, OutsInv, ArrayInv, ConsumerStep, StartRead;
    ConsumerDecidesCore(c, s, n);
    StartsReadContent(s, s.k.n);
  }

  // ---- every run

  lemma StepPreserves(c: Config, s: State, e: Event)
    requires Configured(c) && Inv(c, s) && Permitted(c, s, e) && !Straddles(s, e)
    ensures Inv(c, Step(c, s, e))
  {
    match e
    case Produce(n, buf) =>
      match s.p {
        case PReady(_) => ProducerSupplies(c, s, n, buf);
        case PCopyChunk(_, _, _) => ProducerCopies(c, s, n, buf);
        case PPublishTail(_, _, _, _) => ProducerPublishes(c, s, n, buf);
        case _ => ProducerLooks(c, s, n, buf);
      }
    case Consume(n) =>
      match s.k {
        case CPopValue(_, _) => ConsumerDecides(c, s, n);
        case CSkip(_, _, _) => ConsumerSkips(c, s, n);
        case CCopyChunk(_, _, _, _, _) => ConsumerCopies(c, s, n);
        case CPublishHead(_, _, _, _, _, _) => ConsumerPublishes(c, s, n);
        case _ => ConsumerLooksOn(c, s, n);
      }
  }

  lemma {:induction false} ExecPreserves(c: Config, s: State, es: seq<Event>)
    requires Configured(c) && Inv(c, s) && Clean(c, s, es)
    ensures Inv(c, Exec(c, s, es))
    decreases |es|
  {
    if es != [] {
      StepPreserves(c, s, es[0]);
      ExecPreserves(c, Step(c, s, es[0]), es[1..]);
    }
  }

  lemma InitHolds(c: Config)
    requires Configured(c)
    ensures Inv(c, Init(c))
  {
  }
}
