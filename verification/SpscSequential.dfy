/** A call on the shared ring that is not interrupted is the call on the queue, guarded or
    not: this covers the pushes that drop, which loopback.rs makes. */
module SpscSequential {
  import opened Bits
  import opened Sequences
  import opened Circular
  import opened Spsc
  import opened SpscAttempts
  import DropQueue

  ghost predicate Sound(c: Config, s: State) {
    Configured(c) && |s.data| == c.cap && s.head < c.cap && s.tail < c.cap
  }

  /** The bytes the indices say are queued. */
  function Queue(s: State): seq<byte>
    requires s.head < |s.data| && s.tail < |s.data|
  {
    Queued(s.data, s.head, s.tail)
  }

  lemma RoomOfSpan(c: Config, s: State)
    requires Sound(c, s)
    ensures AvailableValue(c.cap, s.head > s.tail, s.head, s.tail) == c.cap - 1 - Span(s.head, s.tail, c.cap)
    ensures RemainingValue(c.cap, s.head <= s.tail, s.head, s.tail) == Span(s.head, s.tail, c.cap)
  {
  }

  lemma LeadsOnce(c: Config, s: State, e: Event, t: State)
    requires c.cap > 0 && c.frame > 0 && Permitted(c, s, e) && !Straddles(s, e) && t == Step(c, s, e)
    ensures Leads(c, s, Repeat(e, 1), t)
  {
    hide ProducerStep, ConsumerStep, Permitted, Straddles, Leads, Repeat;
    LeadsStay(c, t, e);
    LeadsStep(c, s, e, 1, t);
  }

  // ---- push

  lemma CopyStep(c: Config, s: State, e: Event, len: nat)
    requires Sound(c, s) && e.Produce? && s.p.PCopyChunk? && s.p.off < |s.p.buf| && s.p.at == s.tail
    requires len == Min(c.cap - s.tail, |s.p.buf| - s.p.off)
    ensures Step(c, s, e) == s.(data := Overlay(s.data, s.tail, s.p.buf[s.p.off..s.p.off + len]),
                                p := PPublishTail(s.p.buf, s.p.off, s.tail, len))
  {
    hide Overlay, IsPow2, Masked;
  }

  lemma PublishStep(c: Config, s: State, e: Event)
    requires Configured(c) && s.p.PPublishTail? && s.p.at + s.p.len <= c.cap && e.Produce?
    ensures var tail := Wrap(s.p.at + s.p.len, c.cap);
            Step(c, s, e) == s.(tail := tail, written := s.written + s.p.len,
                                p := if s.p.off + s.p.len < |s.p.buf| then PCopyChunk(s.p.buf, s.p.off + s.p.len, tail)
                                     else PIdle)
  {
    MaskWraps(s.p.at + s.p.len, c.cap);
    assert Masked(s.p.at + s.p.len, c.cap) == Wrap(s.p.at + s.p.len, c.cap);
    hide Masked, Wrap, IsPow2;
  }

  /** One pass of the copy appends its chunk. */
  lemma CopyPass(c: Config, s: State, e: Event) returns (t: State)
    requires Sound(c, s) && e.Produce? && s.p.PCopyChunk? && s.p.off < |s.p.buf| && s.p.at == s.tail
    requires Span(s.head, s.tail, c.cap) + (|s.p.buf| - s.p.off) < c.cap
    ensures Leads(c, s, Repeat(e, 2), t) && Sound(c, t)
    ensures var len := Min(c.cap - s.tail, |s.p.buf| - s.p.off);
            && 0 < len <= |s.p.buf| - s.p.off
            && Queue(t) == Queue(s) + s.p.buf[s.p.off..s.p.off + len]
            && t == s.(data := t.data, tail := t.tail, written := t.written, p := t.p)
            && t.p == if s.p.off + len < |s.p.buf| then PCopyChunk(s.p.buf, s.p.off + len, t.tail) else PIdle
  {
    var b, off := s.p.buf, s.p.off;
    var len := Min(c.cap - s.tail, |b| - off);
    CopyStep(c, s, e, len);
    var s1 := Step(c, s, e);
    assert Permitted(c, s, e) && !Straddles(s, e) && Permitted(c, s1, e) && !Straddles(s1, e);
    hide ProducerStep, Permitted, Straddles, Overlay, IsPow2;
    PublishStep(c, s1, e);
    t := Step(c, s1, e);
    hide Queue, Leads, Repeat, Span, Wrap;
    QueueGrows(c, s, b[off..off + len], t);
    LeadsOnce(c, s, e, s1);
    LeadsOnce(c, s1, e, t);
    LeadsOn(c, s, e, 1, s1, 1, t);
  }

  /** Copying a chunk in behind the queue and moving `tail` over it. */
  lemma QueueGrows(c: Config, s: State, chunk: seq<byte>, t: State)
    requires Sound(c, s) && chunk != [] && s.tail + |chunk| <= c.cap
    requires Span(s.head, s.tail, c.cap) + |chunk| < c.cap
    requires t.data == Overlay(s.data, s.tail, chunk) && t.head == s.head && t.tail == Wrap(s.tail + |chunk|, c.cap)
    ensures Sound(c, t) && Queue(t) == Queue(s) + chunk
  {
    QueuedGrows(s.data, s.head, s.tail, chunk);
  }

  lemma {:induction false} CopyRefines(c: Config, s: State, e: Event) returns (t: State, k: nat)
    requires Sound(c, s) && e.Produce? && s.p.PCopyChunk? && s.p.off < |s.p.buf| && s.p.at == s.tail
    requires Span(s.head, s.tail, c.cap) + (|s.p.buf| - s.p.off) < c.cap
    ensures Leads(c, s, Repeat(e, k), t) && Sound(c, t)
    ensures t == s.(data := t.data, tail := t.tail, written := t.written, p := PIdle)
    ensures Queue(t) == Queue(s) + s.p.buf[s.p.off..]
    decreases |s.p.buf| - s.p.off
  {
    hide Queued, Leads, Repeat, Span, IsPow2;
    var b, off := s.p.buf, s.p.off;
    t := CopyPass(c, s, e);
    k := 2;
    if t.p.PIdle? {
      assert b[off..|b|] == b[off..];
    } else {
      assert b[off..] == b[off..t.p.off] + b[t.p.off..];
      var t1, k1 := CopyRefines(c, t, e);
      LeadsOn(c, s, e, k, t, k1, t1);
      t, k := t1, k + k1;
    }
  }

  /** A buffer of at least the whole ring: three stores and a copy. */
  lemma ResetRefines(c: Config, s: State, e: Event) returns (t: State)
    requires Sound(c, s) && e.Produce? && s.p.PResetTail? && |s.p.buf| >= c.cap - 1
    ensures Leads(c, s, Repeat(e, 3), t) && Sound(c, t)
    ensures t == s.(data := t.data, head := 1, tail := 0, p := PIdle)
    ensures Queue(t) == s.p.buf[|s.p.buf| - (c.cap - 1)..]
  {
    var newest := s.p.buf[|s.p.buf| - (c.cap - 1)..];
    var s1 := s.(tail := 0, p := PResetHead(s.p.buf));
    var s2 := s1.(head := 1, p := PResetCopy(s.p.buf));
    t := s2.(data := Overlay(s.data, 1, newest), p := PIdle);
    QueuedReset(t.data);
    assert t.data[1..] == newest;
    assert Step(c, s, e) == s1 && Step(c, s1, e) == s2;
    assert Step(c, s2, e) == t by {
      assert Slice(s.p.buf, Monus(|s.p.buf|, c.cap - 1), c.cap - 1) == newest;
    }
    hide Queued, Overlay, Leads, Repeat, IsPow2;
    LeadsOnce(c, s, e, s1);
    LeadsOnce(c, s1, e, s2);
    LeadsOnce(c, s2, e, t);
    LeadsOn(c, s, e, 1, s1, 1, s2);
    LeadsOn(c, s, e, 2, s2, 1, t);
  }

  /** Making room: the oldest bytes are dropped. */
  lemma DropRefines(c: Config, s: State, e: Event) returns (t: State)
    requires Sound(c, s) && e.Produce? && s.p.PDropOldest? && 0 < s.p.excess <= Span(s.head, s.tail, c.cap)
    ensures Leads(c, s, Repeat(e, 1), t) && Sound(c, t)
    ensures t == s.(head := t.head, read := t.read, p := StartCopy(s.p.buf, s.tail))
    ensures Queue(t) == Queue(s)[s.p.excess..]
  {
    QueuedAdvances(s.data, s.head, s.tail, s.p.excess);
    MaskWraps(s.head + s.p.excess, c.cap);
    t := Step(c, s, e);
    LeadsOnce(c, s, e, t);
  }

  /** The two loads of a push and its branch. */
  lemma PushChooses(c: Config, s: State, e: Event) returns (t: State)
    requires Sound(c, s) && e.Produce? && s.p.PPushCompare?
    ensures Leads(c, s, Repeat(e, 2), t)
    ensures var b, room := s.p.buf, c.cap - 1 - Span(s.head, s.tail, c.cap);
            t == s.(p := if |b| >= c.cap - 1 then PResetTail(b)
                         else if |b| > room then PDropOldest(b, |b| - room)
                         else StartCopy(b, s.tail))
  {
    RoomOfSpan(c, s);
    var s1 := Step(c, s, e);
    t := Step(c, s1, e);
    hide Leads, Repeat, AvailableValue, StartCopy, Span, IsPow2;
    LeadsOnce(c, s, e, s1);
    LeadsOnce(c, s1, e, t);
    LeadsOn(c, s, e, 1, s1, 1, t);
  }

  /** Once there is room. */
  lemma StartRefines(c: Config, s: State, e: Event, b: seq<byte>) returns (t: State, k: nat)
    requires Sound(c, s) && e.Produce? && s.p == StartCopy(b, s.tail)
    requires Span(s.head, s.tail, c.cap) + |b| < c.cap
    ensures Leads(c, s, Repeat(e, k), t) && Sound(c, t)
    ensures t == s.(data := t.data, tail := t.tail, written := t.written, p := PIdle)
    ensures Queue(t) == Queue(s) + b
  {
    hide Queued, Leads, Repeat, Span, IsPow2;
    if b == [] {
      t, k := s, 0;
      LeadsStay(c, s, e);
      assert Queue(s) + [] == Queue(s);
    } else {
      t, k := CopyRefines(c, s, e);
      assert b[0..] == b;
    }
  }

  /** A push that makes room first. */
  lemma OverflowRefines(c: Config, s: State, e: Event) returns (t: State, k: nat)
    requires Sound(c, s) && e.Produce? && s.p.PDropOldest? && |s.p.buf| < c.cap - 1
    requires s.p.excess == |s.p.buf| - (c.cap - 1 - |Queue(s)|) > 0
    ensures Leads(c, s, Repeat(e, k), t) && Sound(c, t) && t.p.PIdle? && t.k == s.k && t.outs == s.outs
    ensures s.p.excess <= |Queue(s)| && Queue(t) == Queue(s)[s.p.excess..] + s.p.buf
  {
    QueueLength(c, s);
    hide Queue, Leads, Repeat, IsPow2;
    var t1 := DropRefines(c, s, e);
    QueueLength(c, t1);
    hide Span;
    t, k := StartRefines(c, t1, e, s.p.buf);
    LeadsOn(c, s, e, 1, t1, k, t);
    k := 1 + k;
  }

  /** The branch taken is the queue's case. */
  lemma PushCases(q: seq<byte>, limit: nat, b: seq<byte>, q': seq<byte>)
    requires |q| <= limit
    requires |b| >= limit ==> q' == b[|b| - limit..]
    requires |b| < limit < |q| + |b| ==> q' == q[|q| + |b| - limit..] + b
    requires |q| + |b| <= limit ==> q' == q + b
    ensures q' == DropQueue.Push(q, limit, b)
  {
    if |b| >= limit {
      DropQueue.PushOversized(q, limit, b);
    } else if |q| + |b| <= limit {
      DropQueue.PushFitting(q, limit, b);
    } else {
      DropQueue.PushOverflowing(q, limit, b);
    }
  }

  /** Past its branch every push is the queue's. */
  lemma BranchRefines(c: Config, s: State, e: Event, b: seq<byte>) returns (t: State, k: nat)
    requires Sound(c, s) && e.Produce?
    requires var room := c.cap - 1 - |Queue(s)|;
             s.p == if |b| >= c.cap - 1 then PResetTail(b)
                    else if |b| > room then PDropOldest(b, |b| - room)
                    else StartCopy(b, s.tail)
    ensures Leads(c, s, Repeat(e, k), t) && Sound(c, t) && t.p.PIdle? && t.k == s.k && t.outs == s.outs
    ensures Queue(t) == DropQueue.Push(Queue(s), c.cap - 1, b)
  {
    QueueLength(c, s);
    hide *;
    if |b| >= c.cap - 1 {
      t, k := ResetCase(c, s, e, b);
    } else if |b| > c.cap - 1 - |Queue(s)| {
      t, k := OverflowRefines(c, s, e);
      PushCases(Queue(s), c.cap - 1, b, Queue(t));
    } else {
      t, k := StartRefines(c, s, e, b);
      PushCases(Queue(s), c.cap - 1, b, Queue(t));
    }
  }

  lemma ResetCase(c: Config, s: State, e: Event, b: seq<byte>) returns (t: State, k: nat)
    requires Sound(c, s) && e.Produce? && s.p == PResetTail(b) && |b| >= c.cap - 1
    ensures Leads(c, s, Repeat(e, k), t) && Sound(c, t) && t.p.PIdle? && t.k == s.k && t.outs == s.outs
    ensures Queue(t) == DropQueue.Push(Queue(s), c.cap - 1, b)
  {
    QueueLength(c, s);
    assert c.cap - 1 >= 0;
    hide *;
    t := ResetRefines(c, s, e);
    k := 3;
    DropQueue.PushOversized(Queue(s), c.cap - 1, b);
  }

  /** ringbuf_push, uninterrupted, on any branch, is the drop-oldest push. */
  lemma PushRefines(c: Config, s: State, e: Event) returns (t: State, k: nat)
    requires Sound(c, s) && e.Produce? && s.p.PPushCompare?
    ensures Leads(c, s, Repeat(e, k), t) && Sound(c, t) && t.p.PIdle? && t.k == s.k && t.outs == s.outs
    ensures Queue(t) == DropQueue.Push(Queue(s), c.cap - 1, s.p.buf)
  {
    QueueLength(c, s);
    assert c.cap > 0 && c.frame > 0;
    hide *;
    var t1 := PushChooses(c, s, e);
    QueueIgnores(c, s, t1);
    t, k := BranchRefines(c, t1, e, s.p.buf);
    LeadsOn(c, s, e, 2, t1, k, t);
    k := 2 + k;
  }

  lemma QueueIgnores(c: Config, s: State, t: State)
    requires Sound(c, s) && t.data == s.data && t.head == s.head && t.tail == s.tail
    ensures Sound(c, t) && Queue(t) == Queue(s)
  {
  }

  lemma QueueLength(c: Config, s: State)
    requires Sound(c, s)
    ensures |Queue(s)| == Span(s.head, s.tail, c.cap)
  {
  }

  // ---- pop

  lemma ReadSteps(c: Config, s: State, e: Event, len: nat)
    requires Sound(c, s) && e.Consume? && s.k.CCopyChunk? && |s.k.acc| < s.k.m && s.k.at == s.head
    requires len == Min(c.cap - s.head, s.k.m - |s.k.acc|)
    ensures var acc, head := s.k.acc + s.data[s.head..s.head + len], Wrap(s.head + len, c.cap);
            var s1 := s.(k := CPublishHead(s.k.n, s.k.m, acc, s.head, len, s.k.start));
            && Step(c, s, e) == s1
            && Step(c, s1, e) ==
               if |acc| < s.k.m then s.(head := head, read := s.read + len,
                                        k := CCopyChunk(s.k.n, s.k.m, acc, head, s.k.start))
               else s.(head := head, read := s.read + len, k := CIdle,
                       outs := s.outs + [Block(s.k.n, s.k.start, acc)])
  {
    MaskWraps(s.head + len, c.cap);
    hide IsPow2;
  }

  /** One pass of the copy out takes the front of the queue. */
  lemma ReadPass(c: Config, s: State, e: Event) returns (t: State)
    requires Sound(c, s) && e.Consume? && s.k.CCopyChunk? && |s.k.acc| < s.k.m && s.k.at == s.head
    requires s.k.m - |s.k.acc| <= Span(s.head, s.tail, c.cap)
    ensures Leads(c, s, Repeat(e, 2), t) && Sound(c, t)
    ensures var len := Min(c.cap - s.head, s.k.m - |s.k.acc|);
            && 0 < len <= |Queue(s)| && len <= s.k.m - |s.k.acc| && Queue(t) == Queue(s)[len..]
            && var acc := s.k.acc + Queue(s)[..len];
            t == s.(head := t.head, read := t.read,
                    k := if |acc| < s.k.m then CCopyChunk(s.k.n, s.k.m, acc, t.head, s.k.start) else CIdle,
                    outs := if |acc| < s.k.m then s.outs else s.outs + [Block(s.k.n, s.k.start, acc)])
  {
    var len := Min(c.cap - s.head, s.k.m - |s.k.acc|);
    ReadSteps(c, s, e, len);
    var s1 := Step(c, s, e);
    t := Step(c, s1, e);
    QueueAdvances(c, s, len, t);
    assert Permitted(c, s, e) && !Straddles(s, e) && Permitted(c, s1, e) && !Straddles(s1, e);
    hide Queue, Wrap, Leads, Repeat, IsPow2, Span, ConsumerStep, Permitted, Straddles;
    LeadsOnce(c, s, e, s1);
    LeadsOnce(c, s1, e, t);
    LeadsOn(c, s, e, 1, s1, 1, t);
  }

  /** Moving `head` over `len` queued bytes. */
  lemma QueueAdvances(c: Config, s: State, len: nat, t: State)
    requires Sound(c, s) && 0 < len <= |Queue(s)|
    requires t.data == s.data && t.tail == s.tail && t.head == Wrap(s.head + len, c.cap)
    ensures Sound(c, t) && Queue(t) == Queue(s)[len..]
    ensures s.head + len <= c.cap ==> s.data[s.head..s.head + len] == Queue(s)[..len]
  {
    QueuedAdvances(s.data, s.head, s.tail, len);
    if s.head + len <= c.cap {
      WindowPrefix(s.data, s.head, Span(s.head, s.tail, c.cap), len);
    }
  }

  /** `all` is what the pop hands out in the end, and `rest` what stays. */
  lemma {:induction false} ReadRefines(c: Config, s: State, e: Event, all: seq<byte>, rest: seq<byte>)
    returns (t: State, k: nat)
    requires Sound(c, s) && e.Consume? && s.k.CCopyChunk? && |s.k.acc| < s.k.m && s.k.at == s.head
    requires s.k.m - |s.k.acc| <= |Queue(s)|
    requires all == s.k.acc + Queue(s)[..s.k.m - |s.k.acc|] && rest == Queue(s)[s.k.m - |s.k.acc|..]
    ensures Leads(c, s, Repeat(e, k), t) && Sound(c, t) && Queue(t) == rest
    ensures t == s.(head := t.head, read := t.read, k := CIdle, outs := s.outs + [Block(s.k.n, s.k.start, all)])
    decreases s.k.m - |s.k.acc|
  {
    QueueLength(c, s);
    assert c.cap > 0 && c.frame > 0;
    var left := s.k.m - |s.k.acc|;
    var len := Min(c.cap - s.head, left);
    t := ReadPass(c, s, e);
    k := 2;
    hide *;
    if len < left {
      TakeTwice(s.k.acc, Queue(s), s.k.m, len, t.k.acc, Queue(t));
      var t1, k1 := ReadRefines(c, t, e, all, rest);
      LeadsOn(c, s, e, k, t, k1, t1);
      t, k := t1, k + k1;
    }
  }

  /** What is copied out so far and what is still to be taken make up the same whole. */
  lemma TakeTwice(acc: seq<byte>, q: seq<byte>, m: nat, len: nat, acc': seq<byte>, q': seq<byte>)
    requires |acc| + len <= m <= |acc| + |q| && acc' == acc + q[..len] && q' == q[len..]
    ensures |acc'| == |acc| + len && m - |acc'| <= |q'|
    ensures acc' + q'[..m - |acc'|] == acc + q[..m - |acc|] && q'[m - |acc'|..] == q[m - |acc|..]
  {
  }

  /** Once the pop has its place. */
  lemma StartReadRefines(c: Config, s: State, e: Event, n: nat, m: nat) returns (t: State, k: nat)
    requires Sound(c, s) && e.Consume? && m <= |Queue(s)|
    ensures var s1 := StartRead(s, n, m);
            && Leads(c, s1, Repeat(e, k), t) && Sound(c, t) && Queue(t) == Queue(s)[m..]
            && t == s.(head := t.head, read := t.read, k := CIdle, outs := s.outs + [Block(n, s.read, Queue(s)[..m])])
  {
    var s1 := StartRead(s, n, m);
    QueueIgnores(c, s, s1);
    hide Queue, Leads, Repeat, IsPow2;
    if m == 0 {
      t, k := s1, 0;
      LeadsStay(c, s1, e);
    } else {
      assert [] + Queue(s)[..m] == Queue(s)[..m];
      t, k := ReadRefines(c, s1, e, Queue(s)[..m], Queue(s)[m..]);
    }
  }

  lemma ChooseSteps(c: Config, s: State, e: Event)
    requires Sound(c, s) && e.Consume? && s.k.CPopCompare?
    requires DropQueue.InContract(Span(s.head, s.tail, c.cap), s.k.n, c.window)
    ensures var n, remaining := s.k.n, Span(s.head, s.tail, c.cap);
            var s1, diff := s.(k := CPopValue(n, s.head <= s.tail)), remaining - c.window;
            && Step(c, s, e) == s1 && !Straddles(s, e) && !Straddles(s1, e)
            && if diff > 0 then
                 && Step(c, s1, e) == s.(k := CSkip(n, diff, n)) && s.head + diff < 2 * c.cap
                 && Step(c, s.(k := CSkip(n, diff, n)), e)
                    == StartRead(s.(head := Wrap(s.head + diff, c.cap), read := s.read + diff), n, n)
               else Step(c, s1, e) == StartRead(s, n, Min(n, remaining))
  {
    RoomOfSpan(c, s);
    var remaining := Span(s.head, s.tail, c.cap);
    if remaining > c.window {
      MaskWraps(s.head + (remaining - c.window), c.cap);
    }
    hide RemainingValue, IsPow2;
  }

  /** The branch of a pop that skips, and its skip. */
  lemma PopSkips(c: Config, s: State, e: Event) returns (u: State)
    requires Sound(c, s) && e.Consume? && s.k.CPopCompare? && s.k.n <= c.window < |Queue(s)|
    ensures Sound(c, u) && Queue(u) == Queue(s)[|Queue(s)| - c.window..] && u == s.(head := u.head, read := u.read)
    ensures Leads(c, s, Repeat(e, 3), StartRead(u, s.k.n, s.k.n))
  {
    QueueLength(c, s);
    ChooseSteps(c, s, e);
    var n, diff := s.k.n, |Queue(s)| - c.window;
    var s1, s2 := s.(k := CPopValue(n, s.head <= s.tail)), s.(k := CSkip(n, diff, n));
    u := s.(head := Wrap(s.head + diff, c.cap), read := s.read + diff);
    QueueAdvances(c, s, diff, u);
    var t := StartRead(u, n, n);
    assert Permitted(c, s, e) && Permitted(c, s1, e) && Permitted(c, s2, e) && !Straddles(s2, e);
    hide Queue, Leads, Repeat, IsPow2, Span, StartRead, ConsumerStep, Permitted, Straddles, Wrap;
    LeadsOnce(c, s, e, s1);
    LeadsOnce(c, s1, e, s2);
    LeadsOnce(c, s2, e, t);
    LeadsOn(c, s, e, 1, s1, 1, s2);
    LeadsOn(c, s, e, 2, s2, 1, t);
  }

  /** The branch of a pop that skips nothing. */
  lemma PopStays(c: Config, s: State, e: Event)
    requires Sound(c, s) && e.Consume? && s.k.CPopCompare? && |Queue(s)| <= c.window
    ensures Leads(c, s, Repeat(e, 2), StartRead(s, s.k.n, Min(s.k.n, |Queue(s)|)))
  {
    QueueLength(c, s);
    ChooseSteps(c, s, e);
    var s1, t := s.(k := CPopValue(s.k.n, s.head <= s.tail)), StartRead(s, s.k.n, Min(s.k.n, |Queue(s)|));
    assert Permitted(c, s, e) && Permitted(c, s1, e);
    hide Queue, Leads, Repeat, IsPow2, Span, StartRead, ConsumerStep, Permitted, Straddles;
    LeadsOnce(c, s, e, s1);
    LeadsOnce(c, s1, e, t);
    LeadsOn(c, s, e, 1, s1, 1, t);
  }

  /** A pop that skips. */
  lemma SkippingRefines(c: Config, s: State, e: Event) returns (t: State, k: nat, pos: nat)
    requires Sound(c, s) && e.Consume? && s.k.CPopCompare? && s.k.n <= c.window < |Queue(s)|
    ensures Leads(c, s, Repeat(e, k), t) && Sound(c, t) && t.k.CIdle? && t.p == s.p
    ensures var newest := Queue(s)[|Queue(s)| - c.window..];
            Queue(t) == newest[s.k.n..] && t.outs == s.outs + [Block(s.k.n, pos, newest[..s.k.n])]
  {
    assert c.cap > 0 && c.frame > 0;
    hide *;
    var n := s.k.n;
    var u := PopSkips(c, s, e);
    t, k := StartReadRefines(c, u, e, n, n);
    pos := u.read;
    LeadsOn(c, s, e, 3, StartRead(u, n, n), k, t);
    k := 3 + k;
  }

  /** A pop that skips nothing. */
  lemma PlainRefines(c: Config, s: State, e: Event) returns (t: State, k: nat, pos: nat)
    requires Sound(c, s) && e.Consume? && s.k.CPopCompare? && |Queue(s)| <= c.window
    ensures Leads(c, s, Repeat(e, k), t) && Sound(c, t) && t.k.CIdle? && t.p == s.p
    ensures var m := Min(s.k.n, |Queue(s)|);
            Queue(t) == Queue(s)[m..] && t.outs == s.outs + [Block(s.k.n, pos, Queue(s)[..m])]
  {
    var n, m := s.k.n, Min(s.k.n, |Queue(s)|);
    assert c.cap > 0 && c.frame > 0 && m <= |Queue(s)|;
    PopStays(c, s, e);
    hide *;
    t, k := StartReadRefines(c, s, e, n, m);
    pos := s.read;
    LeadsOn(c, s, e, 2, StartRead(s, n, m), k, t);
    k := 2 + k;
  }

  /** ringbuf_pop_back_from, uninterrupted and within its contract, is the queue's. */
  lemma PopRefines(c: Config, s: State, e: Event) returns (t: State, k: nat, pos: nat)
    requires Sound(c, s) && e.Consume? && s.k.CPopCompare?
    requires DropQueue.InContract(|Queue(s)|, s.k.n, c.window)
    ensures Leads(c, s, Repeat(e, k), t) && Sound(c, t) && t.k.CIdle? && t.p == s.p
    ensures var r := DropQueue.PopBackFrom(Queue(s), s.k.n, c.window);
            Queue(t) == r.rest && t.outs == s.outs + [Block(s.k.n, pos, r.taken)]
  {
    PopOf(Queue(s), s.k.n, c.window);
    hide Queue, Leads, Repeat, DropQueue.PopBackFrom, Sound, Configured;
    if |Queue(s)| > c.window {
      t, k, pos := SkippingRefines(c, s, e);
    } else {
      t, k, pos := PlainRefines(c, s, e);
    }
  }

  lemma PopOf(q: seq<byte>, n: nat, window: nat)
    requires DropQueue.InContract(|q|, n, window)
    ensures var r := DropQueue.PopBackFrom(q, n, window);
            if |q| > window then r.taken == q[|q| - window..][..n] && r.rest == q[|q| - window..][n..]
            else r.taken == q[..Min(n, |q|)] && r.rest == q[Min(n, |q|)..]
  {
    assert q[0..] == q;
  }
}
