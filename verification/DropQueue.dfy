/** The bounded drop-oldest byte queue: what the ring buffer is meant to be. */
module DropQueue {
  import opened Bits
  import opened Sequences

  /** Append `b`; when more than `limit` bytes would be queued, keep the newest `limit`. */
  function Push(q: seq<byte>, limit: nat, b: seq<byte>): (r: seq<byte>) {
    var s := q + b;
    if |s| <= limit then s else s[|s| - limit..]
  }

  lemma PushOversized(q: seq<byte>, limit: nat, b: seq<byte>)
    requires |b| >= limit
    ensures Push(q, limit, b) == b[|b| - limit..]
  {
  }

  lemma PushOverflowing(q: seq<byte>, limit: nat, b: seq<byte>)
    requires |q| <= limit && |b| < limit < |q| + |b|
    ensures Push(q, limit, b) == q[|q| + |b| - limit..] + b
  {
  }

  lemma PushFitting(q: seq<byte>, limit: nat, b: seq<byte>)
    requires |q| + |b| <= limit
    ensures Push(q, limit, b) == q + b
  {
  }

  /** A removal: the bytes skipped over, the bytes handed out, and what stays. */
  datatype Removal = Removal(skipped: seq<byte>, taken: seq<byte>, rest: seq<byte>)

  function PopFront(q: seq<byte>, n: nat): Removal {
    var m := Min(n, |q|);
    Removal([], q[..m], q[m..])
  }

  function PopBack(q: seq<byte>, n: nat): Removal {
    var m := Min(n, |q|);
    Removal(q[..|q| - m], q[|q| - m..], [])
  }

  /** Forget all but the newest `window` bytes, then hand out up to `n` of the oldest left. */
  function PopBackFrom(q: seq<byte>, n: nat, window: nat): Removal {
    var keep := Min(|q|, window);
    var newest := q[|q| - keep..];
    var m := Min(n, keep);
    Removal(q[..|q| - keep], newest[..m], newest[m..])
  }

  function Newest(all: seq<byte>, limit: nat): seq<byte> {
    all[|all| - Min(limit, |all|)..]
  }

  /** A pop that finds its bytes hands out the oldest of the newest and leaves the others. */
  lemma PopsNewest(q: seq<byte>, n: nat, window: nat)
    requires n <= window && n <= |q|
    ensures var r, newest := PopBackFrom(q, n, window), Newest(q, window);
            && n <= |newest| && r.taken == newest[..n] && r.rest == newest[n..]
            && Newest(r.rest, window) == r.rest
  {
  }

  /** The calls on which `ringbuf_pop_back_from` does what PopBackFrom says. */
  predicate InContract(remaining: nat, n: nat, window: nat) {
    n <= window || remaining <= window
  }

  // ---- runs of operations

  datatype Op =
    | OpPush(b: seq<byte>)
    | OpPopFront(n: nat)
    | OpPopBack(n: nat)
    | OpPopBackFrom(n: nat, window: nat)
    | OpFlush

  datatype Entry = Taken(bytes: seq<byte>) | Dropped(bytes: seq<byte>)

  datatype History = History(queue: seq<byte>, pushed: seq<byte>, log: seq<Entry>)

  function Remove(h: History, r: Removal): History {
    h.(queue := r.rest, log := h.log + [Dropped(r.skipped), Taken(r.taken)])
  }

  function Apply(h: History, limit: nat, op: Op): History {
    match op
    case OpPush(b) =>
      var s := h.queue + b;
      var q := Push(h.queue, limit, b);
      History(q, h.pushed + b, h.log + [Dropped(s[..|s| - |q|])])
    case OpPopFront(n) => Remove(h, PopFront(h.queue, n))
    case OpPopBack(n) => Remove(h, PopBack(h.queue, n))
    case OpPopBackFrom(n, window) => Remove(h, PopBackFrom(h.queue, n, window))
    case OpFlush => h.(queue := [], log := h.log + [Dropped(h.queue)])
  }

  function Run(limit: nat, ops: seq<Op>): History {
    if ops == [] then History([], [], []) else Apply(Run(limit, ops[..|ops| - 1]), limit, ops[|ops| - 1])
  }

  /** The bytes of all pushes among `ops`, in order. */
  function Pushed(ops: seq<Op>): seq<byte> {
    if ops == [] then []
    else Pushed(ops[..|ops| - 1]) + if ops[|ops| - 1].OpPush? then ops[|ops| - 1].b else []
  }

  /** What each removal handed out, in order. */
  function HandedOut(log: seq<Entry>): seq<seq<byte>> {
    if log == [] then []
    else HandedOut(log[..|log| - 1]) + if log[|log| - 1].Taken? then [log[|log| - 1].bytes] else []
  }

  function Flatten(log: seq<Entry>): seq<byte> {
    if log == [] then [] else Flatten(log[..|log| - 1]) + log[|log| - 1].bytes
  }

  /** The bytes pushed are the bytes dropped and handed out, in the order in which
      that happened, followed by the bytes still queued. */
  predicate Conserved(h: History, limit: nat) {
    h.pushed == Flatten(h.log) + h.queue && |h.queue| <= limit
  }

  lemma FlattenSnoc(log: seq<Entry>, e: Entry)
    ensures Flatten(log + [e]) == Flatten(log) + e.bytes
  {
    assert (log + [e])[..|log|] == log;
  }

  /** Each removal splits the queue into what it skips, what it hands out and what stays, and
      the lengths say where: pop_front takes the oldest bytes there are, up to `n`; pop_back
      the newest, and leaves nothing; pop_back_from the oldest of the newest `window`. */
  lemma RemovalsSplit(q: seq<byte>, n: nat, window: nat)
    ensures var r := PopFront(q, n);
            q == r.taken + r.rest && r.skipped == [] && |r.taken| == Min(n, |q|)
    ensures var r := PopBack(q, n);
            q == r.skipped + r.taken && r.rest == [] && |r.taken| == Min(n, |q|)
    ensures var r := PopBackFrom(q, n, window);
            && q == r.skipped + r.taken + r.rest
            && |r.taken| + |r.rest| == Min(window, |q|) && |r.taken| == Min(n, Min(window, |q|))
  {
    PopBackFromSplits(q, n, window);
  }

  /** What an operation hands out, and what it leaves. */
  function Takes(q: seq<byte>, op: Op): seq<seq<byte>> {
    match op
    case OpPush(_) => []
    case OpPopFront(n) => [PopFront(q, n).taken]
    case OpPopBack(n) => [PopBack(q, n).taken]
    case OpPopBackFrom(n, window) => [PopBackFrom(q, n, window).taken]
    case OpFlush => []
  }

  lemma HandedOutSnoc(log: seq<Entry>, e: Entry)
    ensures HandedOut(log + [e]) == HandedOut(log) + if e.Taken? then [e.bytes] else []
  {
    assert (log + [e])[..|log|] == log;
  }

  lemma HandedOutRemove(h: History, r: Removal)
    ensures HandedOut(Remove(h, r).log) == HandedOut(h.log) + [r.taken]
  {
    HandedOutSnoc(h.log, Dropped(r.skipped));
    HandedOutSnoc(h.log + [Dropped(r.skipped)], Taken(r.taken));
    assert Remove(h, r).log == h.log + [Dropped(r.skipped)] + [Taken(r.taken)];
  }

  /** The log of a run records what each operation hands out of the queue it meets. */
  lemma RunHandsOut(limit: nat, ops: seq<Op>, op: Op)
    ensures HandedOut(Run(limit, ops + [op]).log)
            == HandedOut(Run(limit, ops).log) + Takes(Run(limit, ops).queue, op)
  {
    assert (ops + [op])[..|ops|] == ops;
    ApplyHandsOut(Run(limit, ops), limit, op);
  }

  lemma ApplyHandsOut(h: History, limit: nat, op: Op)
    ensures HandedOut(Apply(h, limit, op).log) == HandedOut(h.log) + Takes(h.queue, op)
  {
    hide HandedOut;
    match op
    case OpPush(b) =>
      HandedOutSnoc(h.log, Apply(h, limit, op).log[|h.log|]);
    case OpPopFront(n) =>
      HandedOutRemove(h, PopFront(h.queue, n));
    case OpPopBack(n) =>
      HandedOutRemove(h, PopBack(h.queue, n));
    case OpPopBackFrom(n, window) =>
      HandedOutRemove(h, PopBackFrom(h.queue, n, window));
    case OpFlush =>
      HandedOutSnoc(h.log, Dropped(h.queue));
  }

  lemma PopBackFromSplits(q: seq<byte>, n: nat, window: nat)
    ensures var r := PopBackFrom(q, n, window); q == r.skipped + r.taken + r.rest
  {
    var keep := Min(|q|, window);
    var newest := q[|q| - keep..];
    assert newest == newest[..Min(n, keep)] + newest[Min(n, keep)..];
    assert q == q[..|q| - keep] + newest;
  }

  lemma Regroup(a: seq<byte>, b: seq<byte>, c: seq<byte>, d: seq<byte>, e: seq<byte>)
    requires b + c == d + e
    ensures (a + b) + c == (a + d) + e
  {
    assert (a + b) + c == a + (b + c);
    assert (a + d) + e == a + (d + e);
  }

  lemma PushConserves(h: History, limit: nat, b: seq<byte>)
    requires h.pushed == Flatten(h.log) + h.queue
    ensures var g := Apply(h, limit, OpPush(b)); g.pushed == Flatten(g.log) + g.queue
  {
    var s, q := h.queue + b, Push(h.queue, limit, b);
    var dropped := s[..|s| - |q|];
    FlattenSnoc(h.log, Dropped(dropped));
    assert s == dropped + q;
    Regroup(Flatten(h.log), h.queue, b, dropped, q);
  }

  /** One operation neither loses, invents nor reorders a byte. */
  lemma ApplyConserves(h: History, limit: nat, op: Op)
    requires Conserved(h, limit)
    ensures Conserved(Apply(h, limit, op), limit)
  {
    match op
    case OpPush(b) =>
      PushConserves(h, limit, b);
    case OpPopFront(n) =>
      assert h.queue == [] + h.queue[..Min(n, |h.queue|)] + h.queue[Min(n, |h.queue|)..];
      RemoveConserves(h, PopFront(h.queue, n));
    case OpPopBack(n) =>
      RemoveConserves(h, PopBack(h.queue, n));
    case OpPopBackFrom(n, window) =>
      PopBackFromSplits(h.queue, n, window);
      RemoveConserves(h, PopBackFrom(h.queue, n, window));
    case OpFlush =>
      FlattenSnoc(h.log, Dropped(h.queue));
  }

  lemma RemoveConserves(h: History, r: Removal)
    requires h.pushed == Flatten(h.log) + h.queue
    requires h.queue == r.skipped + r.taken + r.rest
    ensures var g := Remove(h, r); g.pushed == Flatten(g.log) + g.queue
  {
    FlattenSnoc(h.log, Dropped(r.skipped));
    FlattenSnoc(h.log + [Dropped(r.skipped)], Taken(r.taken));
    assert h.log + [Dropped(r.skipped)] + [Taken(r.taken)] == Remove(h, r).log;
    assert Flatten(h.log) + (r.skipped + r.taken + r.rest) == ((Flatten(h.log) + r.skipped) + r.taken) + r.rest;
  }

  /** Whole-run conservation, over any sequence of operations: what was pushed is what was
      dropped and handed out, in that order, followed by what is queued. */
  lemma {:induction false} Conservation(limit: nat, ops: seq<Op>)
    ensures Conserved(Run(limit, ops), limit) && Run(limit, ops).pushed == Pushed(ops)
  {
    if ops != [] {
      Conservation(limit, ops[..|ops| - 1]);
      ApplyConserves(Run(limit, ops[..|ops| - 1]), limit, ops[|ops| - 1]);
    }
  }

  /** Staleness: when at most `window` bytes are asked for, at most `window` minus
      the bytes returned stay queued, and each byte returned is among the newest
      `window` bytes that were queued. */
  lemma Staleness(q: seq<byte>, n: nat, window: nat)
    requires n <= window
    ensures var r := PopBackFrom(q, n, window);
            && |r.rest| + |r.taken| <= window
            && |r.taken| == Min(n, |q|)
            && forall i | 0 <= i < |r.taken| ::
                 var at := |r.skipped| + i;
                 r.taken[i] == q[at] && |q| - 1 - at < window
  {
    PopBackFromSplits(q, n, window);
  }

  /** A push that drops anything leaves exactly `limit` bytes, and one that drops
      nothing leaves every byte. */
  lemma PushDrops(q: seq<byte>, limit: nat, b: seq<byte>)
    requires |q| <= limit
    ensures |b| <= limit - |q| <==> Push(q, limit, b) == q + b
    ensures |b| > limit - |q| ==> |Push(q, limit, b)| == limit
    ensures exists dropped :: q + b == dropped + Push(q, limit, b)
  {
    var s, r := q + b, Push(q, limit, b);
    assert s == s[..|s| - |r|] + r;
  }

  lemma NewestPush(all: seq<byte>, limit: nat, b: seq<byte>)
    ensures Push(Newest(all, limit), limit, b) == Newest(all + b, limit)
  {
    var q := Newest(all, limit);
    assert all + b == all[..|all| - |q|] + (q + b);
  }

  /** Over any run of pushes alone the queue holds the newest bytes of all that was pushed. */
  lemma {:induction false} PushesKeepNewest(limit: nat, ops: seq<Op>)
    requires forall i :: 0 <= i < |ops| ==> ops[i].OpPush?
    ensures Run(limit, ops).queue == Newest(Pushed(ops), limit)
  {
    if ops != [] {
      var init, last := ops[..|ops| - 1], ops[|ops| - 1];
      PushesKeepNewest(limit, init);
      NewestPush(Pushed(init), limit, last.b);
    }
  }
}
