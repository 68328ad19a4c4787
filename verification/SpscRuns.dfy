/** What the invariant of the shared ring means, over every interleaving. */
module SpscRuns {
  import opened Bits
  import opened Sequences
  import opened Circular
  import opened Spsc
  import opened SpscSafety

  // ---- estimates taken with two loads

  lemma UnsignedIs(x: int)
    requires -0x1_0000_0000_0000_0000 <= x < 0x1_0000_0000_0000_0000
    ensures Unsigned(x) == if x >= 0 then x else x + 0x1_0000_0000_0000_0000
  {
  }

  /** The producer's estimate, compared against `s1` and valued in the later `s2`,
      between which only the consumer moved: it is the room at the second load if
      and only if `head` did not wrap in between on the straight-line branch. When
      it did, and only then, the guard of a push for which there is no room passes. */
  lemma AvailableEstimate(c: Config, s1: State, s2: State, n: nat)
    requires Configured(c) && IndexInv(c, s1) && IndexInv(c, s2)
    requires s2.tail == s1.tail && s2.written == s1.written && s1.read <= s2.read
    ensures AvailableValue(c.cap, s1.head > s1.tail, s2.head, s2.tail) == Room(c, s2)
            <==> !(s1.head > s1.tail && s2.head <= s2.tail)
    ensures AvailableValue(c.cap, s1.head > s1.tail, s2.head, s2.tail) >= Room(c, s2) >= Room(c, s1)
    ensures Room(c, s2) < n <= MAX_CAPACITY ==>
              (AvailableValue(c.cap, s1.head > s1.tail, s2.head, s2.tail) >= n
               <==> s1.head > s1.tail && s2.head <= s2.tail)
  {
    UnsignedIs(if s1.head > s1.tail then s2.head - s2.tail - 1 else c.cap - s2.tail + s2.head - 1);
    hide Unsigned, IsPow2;
  }

  /** The consumer's estimate, likewise, with `tail` moving in between. */
  lemma RemainingEstimate(c: Config, s1: State, s2: State, n: nat)
    requires Configured(c) && IndexInv(c, s1) && IndexInv(c, s2)
    requires s2.head == s1.head && s2.read == s1.read && s1.written <= s2.written
    ensures RemainingValue(c.cap, s1.head <= s1.tail, s2.head, s2.tail) == Length(s2)
            <==> !(s1.head <= s1.tail && s2.tail < s2.head)
    ensures RemainingValue(c.cap, s1.head <= s1.tail, s2.head, s2.tail) >= Length(s2) >= Length(s1)
    ensures Length(s2) < n <= MAX_CAPACITY ==>
              (RemainingValue(c.cap, s1.head <= s1.tail, s2.head, s2.tail) >= n
               <==> s1.head <= s1.tail && s2.tail < s2.head)
  {
    UnsignedIs(if s1.head <= s1.tail then s2.tail - s2.head else c.cap - s2.head + s2.tail);
    hide Unsigned, IsPow2;
  }

  /** What the theorems assume of paired loads is exactly that each estimate is right: in a
      reachable state the second load straddles a wrap if and only if the value it gives is
      not the room, or the number of bytes, there then is. */
  lemma StraddlesExactly(c: Config, s: State, e: Event)
    requires Configured(c) && Core(c, s)
    ensures e.Produce? && (s.p.PPeekValue? || s.p.PPushValue?) ==>
              (Straddles(s, e) <==> AvailableValue(c.cap, s.p.straight, s.head, s.tail) != Room(c, s))
    ensures e.Consume? && (s.k.CPeekValue? || s.k.CPopValue?) ==>
              (Straddles(s, e) <==> RemainingValue(c.cap, s.k.straight, s.head, s.tail) != Length(s))
  {
    if e.Produce? && (s.p.PPeekValue? || s.p.PPushValue?) {
      UnsignedIs(if s.p.straight then s.head - s.tail - 1 else c.cap - s.tail + s.head - 1);
    } else if e.Consume? && (s.k.CPeekValue? || s.k.CPopValue?) {
      UnsignedIs(if s.k.straight then s.tail - s.head else c.cap - s.head + s.tail);
    }
    hide Unsigned, IsPow2;
  }

  // ---- positions of what was delivered

  /** The position in the stream of every byte delivered. */
  function Source(outs: seq<Out>): seq<nat>
    decreases |outs|
  {
    if outs == [] then []
    else
      Source(outs[..|outs| - 1]) +
      match outs[|outs| - 1]
      case Miss(_) => []
      case Block(_, pos, bytes) => seq(|bytes|, i requires 0 <= i => pos + i)
  }

  /** The bytes delivered. */
  function Delivered(outs: seq<Out>): seq<byte>
    decreases |outs|
  {
    if outs == [] then []
    else
      Delivered(outs[..|outs| - 1]) +
      match outs[|outs| - 1]
      case Miss(_) => []
      case Block(_, _, bytes) => bytes
  }

  ghost predicate Increasing(ps: seq<nat>) {
    forall i, j :: 0 <= i < j < |ps| ==> ps[i] < ps[j]
  }

  /** `bytes` is picked out of `stream` at the positions `ps`. */
  ghost predicate PickedAt(bytes: seq<byte>, stream: seq<byte>, ps: seq<nat>) {
    |bytes| == |ps| && forall i :: 0 <= i < |ps| ==> ps[i] < |stream| && bytes[i] == stream[ps[i]]
  }

  ghost predicate Below(ps: seq<nat>, limit: nat) {
    forall i :: 0 <= i < |ps| ==> ps[i] < limit
  }

  lemma PickBlock(picked: seq<byte>, stream: seq<byte>, ps: seq<nat>, pos: nat, bytes: seq<byte>)
    requires Increasing(ps) && Below(ps, pos) && PickedAt(picked, stream, ps) && Slices(bytes, stream, pos)
    ensures var qs := ps + seq(|bytes|, i requires 0 <= i => pos + i);
            Increasing(qs) && Below(qs, pos + |bytes|) && PickedAt(picked + bytes, stream, qs)
  {
    assert forall i :: 0 <= i < |bytes| ==> bytes[i] == stream[pos + i];
  }

  /** Delivery is in stream order, each byte at most once. */
  lemma {:induction false} DeliveredInOrder(outs: seq<Out>, stream: seq<byte>, limit: nat)
    requires OutsInv(outs, stream, limit)
    ensures Increasing(Source(outs)) && PickedAt(Delivered(outs), stream, Source(outs))
    ensures Below(Source(outs), limit)
    decreases |outs|
  {
    hide Increasing, PickedAt, Slices;
    if outs == [] {
      EmptyPick(stream, limit);
    } else {
      var init, last := outs[..|outs| - 1], outs[|outs| - 1];
      match last
      case Miss(_) =>
        DeliveredInOrder(init, stream, limit);
        assert Source(outs) == Source(init) && Delivered(outs) == Delivered(init);
      case Block(n, pos, bytes) =>
        DeliveredInOrder(init, stream, pos);
        PickBlock(Delivered(init), stream, Source(init), pos, bytes);
    }
  }

  lemma EmptyPick(stream: seq<byte>, limit: nat)
    ensures Increasing([]) && PickedAt([], stream, []) && Below([], limit)
  {
  }

  // ---- head and tail are the counters modulo the capacity

  lemma RemainderAdvances(x: nat, d: nat, cap: nat)
    requires cap > 0 && d <= cap
    ensures Wrap(x % cap + d, cap) == (x + d) % cap
  {
    var q, r := x / cap, x % cap;
    assert x == q * cap + r;
    if r + d >= cap {
      assert x + d == (q + 1) * cap + (r + d - cap) by {
        assert (q + 1) * cap == q * cap + cap;
      }
      if r + d - cap < cap {
        RemainderUnique(x + d, cap, q + 1, r + d - cap);
      }
    } else {
      RemainderUnique(x + d, cap, q, r + d);
    }
  }

  lemma CountersStep(c: Config, s: State, e: Event)
    requires Configured(c) && Inv(c, s) && Permitted(c, s, e) && !Straddles(s, e)
    requires s.head == s.read % c.cap
    ensures var t := Step(c, s, e); t.head == t.read % c.cap
  {
    hide Content, ProducerStep, Straddles;
    match e
    case Produce(n, buf) =>
      hide Core;
      ProducerKeepsHead(c, s, n, buf);
    case Consume(n) =>
      if s.k.CSkip? {
        HeadCounts(c, s, s.k.diff);
      } else if s.k.CPublishHead? {
        HeadCounts(c, s, s.k.len);
      }
  }

  lemma HeadCounts(c: Config, s: State, d: nat)
    requires Configured(c) && Core(c, s) && d <= Length(s) && s.head == s.read % c.cap
    ensures Masked(s.head + d, c.cap) == (s.read + d) % c.cap
  {
    HeadAdvances(c, s, d);
    hide Core, Masked;
    RemainderAdvances(s.read, d, c.cap);
  }

  /** `head` has a single writer: no step of a guarded push stores it. */
  lemma ProducerKeepsHead(c: Config, s: State, n: nat, buf: seq<byte>)
    requires Configured(c) && Core(c, s)
    ensures var t := ProducerStep(c, s, n, buf); t.head == s.head && t.read == s.read
  {
  }

  /** `tail` has a single writer. */
  lemma ConsumerKeepsTail(c: Config, s: State, n: nat)
    requires Configured(c)
    ensures var t := ConsumerStep(c, s, n);
            t.tail == s.tail && t.written == s.written && t.data == s.data && t.stream == s.stream && t.p == s.p
  {
  }

  lemma {:induction false} CountersExec(c: Config, s: State, es: seq<Event>)
    requires Configured(c) && Inv(c, s) && Clean(c, s, es) && s.head == s.read % c.cap
    ensures var t := Exec(c, s, es); t.head == t.read % c.cap
    decreases |es|
  {
    hide Content, Core;
    if es != [] {
      StepPreserves(c, s, es[0]);
      CountersStep(c, s, es[0]);
      CountersExec(c, Step(c, s, es[0]), es[1..]);
    }
  }

  // ---- what the steps of one side leave alone

  lemma ProducerKeepsConsumer(c: Config, s: State, n: nat, buf: seq<byte>)
    requires Configured(c) && Core(c, s)
    ensures var t := ProducerStep(c, s, n, buf); t.k == s.k && t.read == s.read && t.outs == s.outs
  {
  }

  lemma ConsumerExtends(c: Config, s: State, n: nat)
    requires c.cap > 0
    ensures var t := ConsumerStep(c, s, n); |s.outs| <= |t.outs| && t.outs[..|s.outs|] == s.outs
  {
  }

  lemma ProducerKeepsOuts(c: Config, s: State, n: nat, buf: seq<byte>)
    requires c.cap > 0
    ensures var t := ProducerStep(c, s, n, buf);
            t.outs == s.outs && t.stream == s.stream + if s.p.PReady? && |buf| == s.p.n then buf else []
  {
  }

  // ---- every request is answered

  /** What the consumer asked for, attempt by attempt. */
  function Requests(c: Config, s: State, es: seq<Event>): seq<nat>
    requires c.cap > 0
    decreases |es|
  {
    if es == [] then []
    else (if es[0].Consume? && s.k.CIdle? then [es[0].n] else []) + Requests(c, Step(c, s, es[0]), es[1..])
  }

  /** What was asked for in the attempts that have come to something, and in the running one. */
  function Answers(outs: seq<Out>): seq<nat> {
    seq(|outs|, i requires 0 <= i < |outs| => outs[i].n)
  }

  function Pending(k: Consumer): seq<nat> {
    if k.CIdle? then [] else [k.n]
  }

  /** A step that ends an attempt records its outcome, and no other step records one. */
  lemma AttemptsEnd(c: Config, s: State, n: nat)
    requires Configured(c) && Core(c, s)
    ensures var t := ConsumerStep(c, s, n);
            if t.outs == s.outs then !t.k.CIdle? && t.k.n == if s.k.CIdle? then n else s.k.n
            else t.k.CIdle? && !s.k.CIdle? && |t.outs| == |s.outs| + 1
                 && t.outs[..|s.outs|] == s.outs && t.outs[|s.outs|].n == s.k.n
  {
    hide ProducerInv, IsPow2;
  }

  lemma AnswersStep(c: Config, s: State, n: nat)
    requires Configured(c) && Core(c, s)
    ensures var t := ConsumerStep(c, s, n);
            Answers(t.outs) + Pending(t.k)
            == Answers(s.outs) + Pending(s.k) + if s.k.CIdle? then [n] else []
  {
    AttemptsEnd(c, s, n);
    hide Core, ConsumerStep;
    var t := ConsumerStep(c, s, n);
    if t.outs != s.outs {
      forall i | 0 <= i < |s.outs|
        ensures t.outs[i] == s.outs[i]
      {
        assert t.outs[..|s.outs|][i] == s.outs[i];
      }
      assert Answers(t.outs) == Answers(s.outs) + [s.k.n];
    }
  }

  /** A consumer's step records at most one outcome. */
  lemma ConsumerAddsOut(c: Config, s: State, n: nat)
    requires c.cap > 0
    ensures var t := ConsumerStep(c, s, n);
            && t.stream == s.stream
            && (t.outs == s.outs || (|t.outs| == |s.outs| + 1 && t.outs[..|s.outs|] == s.outs))
  {
  }

  lemma {:induction false} AnswersExec(c: Config, s: State, es: seq<Event>)
    requires Configured(c) && Inv(c, s) && Clean(c, s, es)
    ensures var t := Exec(c, s, es);
            Answers(t.outs) + Pending(t.k) == Answers(s.outs) + Pending(s.k) + Requests(c, s, es)
    decreases |es|
  {
    hide Content, Core, Answers, ProducerStep, ConsumerStep;
    if es == [] {
      assert Answers(s.outs) + Pending(s.k) + [] == Answers(s.outs) + Pending(s.k);
    } else {
      StepPreserves(c, s, es[0]);
      match es[0] {
        case Produce(n, buf) => ProducerKeepsConsumer(c, s, n, buf);
        case Consume(n) => AnswersStep(c, s, n);
      }
      AnswersExec(c, Step(c, s, es[0]), es[1..]);
    }
  }

  /** The consumer's guard: silence if and only if too few bytes are queued when it looks. */
  lemma ConsumerGuard(c: Config, s: State, n: nat)
    requires Configured(c) && Core(c, s) && s.k.CPeekValue? && !Straddles(s, Consume(n))
    ensures var t := ConsumerStep(c, s, n);
            t == if s.k.n <= Length(s) then s.(k := CPopCompare(s.k.n))
                 else s.(k := CIdle, outs := s.outs + [Miss(s.k.n)])
  {
    RemainingIsLength(c, s, s.k.straight);
  }

  /** The producer's guard: refused if and only if there is too little room when it looks. */
  lemma ProducerGuard(c: Config, s: State, n: nat, buf: seq<byte>)
    requires Configured(c) && Core(c, s) && s.p.PPeekValue? && !Straddles(s, Produce(n, buf))
    ensures var t := ProducerStep(c, s, n, buf);
            t == s.(p := if s.p.n <= Room(c, s) then PReady(s.p.n) else PIdle)
  {
    AvailableIsRoom(c, s, s.p.straight);
  }

  // ---- the theorems

  /** In a reachable state: the counters, the indices, and what was delivered. */
  ghost predicate Safe(c: Config, s: State) {
    && s.read <= s.written <= s.read + c.cap - 1 && s.written <= |s.stream|
    && s.head == s.read % c.cap && s.tail == s.written % c.cap
    && Increasing(Source(s.outs)) && PickedAt(Delivered(s.outs), s.stream, Source(s.outs))
    && (forall i :: 0 <= i < |s.outs| && s.outs[i].Block? ==> |s.outs[i].bytes| == s.outs[i].n)
    && !(s.p.PResetTail? || s.p.PResetHead? || s.p.PResetCopy? || s.p.PDropOldest?)
  }

  lemma {:induction false} BlocksFull(outs: seq<Out>, stream: seq<byte>, limit: nat)
    requires OutsInv(outs, stream, limit)
    ensures forall i :: 0 <= i < |outs| && outs[i].Block? ==> |outs[i].bytes| == outs[i].n
    decreases |outs|
  {
    if outs != [] {
      var init := outs[..|outs| - 1];
      BlocksFull(init, stream, if outs[|outs| - 1].Miss? then limit else outs[|outs| - 1].pos);
      assert forall i :: 0 <= i < |init| ==> outs[i] == init[i];
    }
  }

  lemma InvMeansSafe(c: Config, s: State)
    requires Configured(c) && Inv(c, s) && s.head == s.read % c.cap
    ensures Safe(c, s)
  {
    RemainderAdvances(s.read, s.written - s.read, c.cap);
    assert OutsInv(s.outs, s.stream, Mark(s.k, s.read));
    DeliveredInOrder(s.outs, s.stream, Mark(s.k, s.read));
    BlocksFull(s.outs, s.stream, Mark(s.k, s.read));
  }

  /** Over every interleaving of guarded pushes of whole frames with guarded pops of at
      most max_bufsize bytes, no paired loads straddling a wrap: the counters stay
      within one array of each other, the indices are the counters modulo the
      capacity, the branches of the push that discard are never taken, each guarded
      pop obtains as many bytes as it asked for, and the bytes obtained are bytes
      accepted, in order, none twice. Every request but the running one has been answered
      once, in order, with silence or with bytes. */
  lemma Safety(c: Config, es: seq<Event>)
    requires Configured(c) && Clean(c, Init(c), es)
    ensures var t := Exec(c, Init(c), es);
            Safe(c, t) && Answers(t.outs) + Pending(t.k) == Requests(c, Init(c), es)
  {
    InitHolds(c);
    assert 0 % c.cap == 0;
    ExecPreserves(c, Init(c), es);
    CountersExec(c, Init(c), es);
    InvMeansSafe(c, Exec(c, Init(c), es));
    AnswersExec(c, Init(c), es);
    assert Answers([]) + [] + Requests(c, Init(c), es) == Requests(c, Init(c), es);
  }

  /** The array element of the `j`-th queued byte. */
  function Element(c: Config, s: State, j: nat): nat {
    Wrap(s.head + j, c.cap)
  }

  /** The array element `i` holds a queued byte. */
  ghost predicate Holds(c: Config, s: State, i: int) {
    exists j: nat :: j < Length(s) && i == Element(c, s, j)
  }

  /** The elements the producer is about to copy into hold no queued byte, and those the
      consumer is about to copy out of all do. */
  ghost predicate CopiesApart(c: Config, s: State) {
    && (s.p.PCopyChunk? ==>
          forall i :: s.p.at <= i < s.p.at + Min(Monus(c.cap, s.p.at), Monus(|s.p.buf|, s.p.off)) ==> !Holds(c, s, i))
    && (s.k.CCopyChunk? ==>
          forall i :: s.k.at <= i < s.k.at + Min(Monus(c.cap, s.k.at), Monus(s.k.m, |s.k.acc|)) ==> Holds(c, s, i))
  }

  lemma CoreMeansApart(c: Config, s: State)
    requires Configured(c) && Core(c, s)
    ensures CopiesApart(c, s)
  {
    if s.k.CCopyChunk? {
      forall i | s.k.at <= i < s.k.at + Min(Monus(c.cap, s.k.at), Monus(s.k.m, |s.k.acc|))
        ensures Holds(c, s, i)
      {
        assert i == Element(c, s, i - s.head);
      }
    }
  }

  /** No copy of one side ever meets a copy of the other. */
  lemma RaceFree(c: Config, es: seq<Event>)
    requires Configured(c) && Clean(c, Init(c), es)
    ensures CopiesApart(c, Exec(c, Init(c), es))
  {
    InitHolds(c);
    ExecPreserves(c, Init(c), es);
    hide Content;
    CoreMeansApart(c, Exec(c, Init(c), es));
  }

  // ---- peek, then act

  /** A pop of `n` bytes whose guard passed, before which `before` was obtained, is still
      under way or has obtained `n` bytes. */
  ghost predicate Obtains(s: State, n: nat, before: seq<Out>) {
    if s.outs == before then
      s.k != CIdle && !s.k.CPeekCompare? && !s.k.CPeekValue? && s.k.n == n
    else
      |before| < |s.outs| && s.outs[..|before|] == before && s.outs[|before|].Block? && s.outs[|before|].n == n
  }

  lemma ObtainsStays(c: Config, s: State, e: Event, n: nat, before: seq<Out>)
    requires Configured(c) && Core(c, s) && Obtains(s, n, before)
    ensures Obtains(Step(c, s, e), n, before)
  {
    if e.Produce? {
      ProducerKeepsConsumer(c, s, e.n, e.buf);
      hide Core, ProducerStep;
    } else {
      hide ProducerInv, IndexInv;
      ConsumerExtends(c, s, e.n);
    }
  }

  lemma {:induction false} ObtainsRuns(c: Config, s: State, es: seq<Event>, n: nat, before: seq<Out>)
    requires Configured(c) && Inv(c, s) && Clean(c, s, es) && Obtains(s, n, before)
    ensures Obtains(Exec(c, s, es), n, before) && Inv(c, Exec(c, s, es))
    decreases |es|
  {
    hide Content, Core, Obtains, ProducerStep, ConsumerStep;
    if es != [] {
      StepPreserves(c, s, es[0]);
      ObtainsStays(c, s, es[0], n, before);
      ObtainsRuns(c, Step(c, s, es[0]), es[1..], n, before);
    }
  }

  lemma BlockFull(c: Config, s: State, i: nat)
    requires Inv(c, s) && i < |s.outs| && s.outs[i].Block?
    ensures |s.outs[i].bytes| == s.outs[i].n
  {
    BlocksFull(s.outs, s.stream, Mark(s.k, s.read));
  }

  /** Peek, then read: a guard that finds `n` bytes is followed, however the producer runs
      in between, by a pop that obtains exactly `n`, unless it is still under way. */
  lemma PeekThenRead(c: Config, s: State, n: nat, es: seq<Event>)
    requires Configured(c) && Inv(c, s) && s.k.CPeekValue? && s.k.n == n
    requires RemainingValue(c.cap, s.k.straight, s.head, s.tail) >= n
    requires Clean(c, s, [Consume(n)] + es)
    ensures var t := Exec(c, s, [Consume(n)] + es);
            if t.outs == s.outs then t.k != CIdle && t.k.n == n
            else |s.outs| < |t.outs| && t.outs[|s.outs|].Block? && |t.outs[|s.outs|].bytes| == n
  {
    assert ([Consume(n)] + es)[1..] == es;
    StepPreserves(c, s, Consume(n));
    var s1 := Step(c, s, Consume(n));
    assert s1 == s.(k := CPopCompare(n));
    hide Inv, ConsumerStep, RemainingValue;
    ObtainsRuns(c, s1, es, n, s.outs);
    var t := Exec(c, s1, es);
    if t.outs != s.outs {
      BlockFull(c, t, |s.outs|);
    }
  }

  /** No step of the producer in the run stores `head`. */
  predicate HeadKept(c: Config, s: State, es: seq<Event>)
    requires c.cap > 0
    decreases |es|
  {
    es == [] || ((es[0].Produce? ==> Step(c, s, es[0]).head == s.head) && HeadKept(c, Step(c, s, es[0]), es[1..]))
  }

  /** What one run of both sides does to the stream and to `head`. */
  lemma {:induction false} StreamGrows(c: Config, s: State, es: seq<Event>)
    requires Configured(c) && Inv(c, s) && Clean(c, s, es)
    ensures var t := Exec(c, s, es); s.stream <= t.stream && Inv(c, t) && HeadKept(c, s, es)
    decreases |es|
  {
    hide Content, Core, ProducerStep, ConsumerStep;
    if es != [] {
      StepPreserves(c, s, es[0]);
      match es[0] {
        case Produce(n, buf) =>
          ProducerKeepsHead(c, s, n, buf);
          ProducerKeepsOuts(c, s, n, buf);
        case Consume(n) =>
          ConsumerKeepsTail(c, s, n);
      }
      StreamGrows(c, Step(c, s, es[0]), es[1..]);
    }
  }

  lemma {:induction false} ProducerWaits(c: Config, s: State, es: seq<Event>)
    requires Configured(c) && Inv(c, s) && Clean(c, s, es) && forall i :: 0 <= i < |es| ==> es[i].Consume?
    ensures var t := Exec(c, s, es); Inv(c, t) && t.p == s.p && t.stream == s.stream
    decreases |es|
  {
    hide Content, Core, ProducerStep, ConsumerStep;
    if es != [] {
      StepPreserves(c, s, es[0]);
      ConsumerKeepsTail(c, s, es[0].n);
      ProducerWaits(c, Step(c, s, es[0]), es[1..]);
    }
  }

  /** Peek, then push: once a guard has found room for `buf`, then however the consumer
      runs before the push and both sides run after it begins, every byte of `buf` is
      accepted, `head` is not stored, and at the end of the push all is published. */
  lemma PeekThenPush(c: Config, s: State, wait: seq<Event>, buf: seq<byte>, es: seq<Event>)
    requires Configured(c) && Inv(c, s) && s.p.PPeekValue? && s.p.n == |buf|
    requires AvailableValue(c.cap, s.p.straight, s.head, s.tail) >= |buf|
    requires forall i :: 0 <= i < |wait| ==> wait[i].Consume?
    requires Clean(c, s, [Produce(|buf|, [])] + wait)
    requires Clean(c, Exec(c, s, [Produce(|buf|, [])] + wait), [Produce(|buf|, buf)] + es)
    ensures var u := Exec(c, s, [Produce(|buf|, [])] + wait);
            var t := Exec(c, u, [Produce(|buf|, buf)] + es);
            && s.stream + buf <= t.stream && HeadKept(c, u, [Produce(|buf|, buf)] + es)
            && (t.p.PIdle? ==> t.written == |t.stream|)
  {
    var peek, push := [Produce(|buf|, [])] + wait, [Produce(|buf|, buf)] + es;
    assert peek[1..] == wait && push[1..] == es;
    var s1 := Step(c, s, peek[0]);
    assert s1 == s.(p := PReady(|buf|));
    StepPreserves(c, s, peek[0]);
    hide Core, ProducerStep, ConsumerStep, AvailableValue;
    ProducerWaits(c, s1, wait);
    var u := Exec(c, s, peek);
    assert u == Exec(c, s1, wait);
    StreamGrows(c, u, push);
    StepPreserves(c, u, push[0]);
    ProducerKeepsOuts(c, u, |buf|, buf);
    StreamGrows(c, Step(c, u, push[0]), es);
  }

  // ---- staleness

  /** Where the running pop reads from, once it has measured the queue. */
  function ReadStart(s: State): nat {
    match s.k
    case CSkip(_, diff, _) => s.read + diff
    case CCopyChunk(_, _, _, _, start) => start
    case CPublishHead(_, _, _, _, _, start) => start
    case _ => s.read
  }

  predicate Popping(k: Consumer) {
    k.CSkip? || k.CCopyChunk? || k.CPublishHead?
  }

  /** A pop that measured the queue when `seen` bytes had been published, and before which
      `before` was obtained, is still on its way to read from the newest max_bufsize of
      those, or has delivered from there. */
  ghost predicate Fresh(c: Config, s: State, before: seq<Out>, seen: nat) {
    if s.outs == before then Popping(s.k) && seen <= ReadStart(s) + c.window
    else
      && |before| < |s.outs| && s.outs[..|before|] == before
      && s.outs[|before|].Block? && seen <= s.outs[|before|].pos + c.window
  }

  lemma FreshAtFirst(c: Config, s: State, n: nat)
    requires Configured(c) && Core(c, s) && s.k.CPopValue? && !Straddles(s, Consume(n))
    ensures Fresh(c, ConsumerStep(c, s, n), s.outs, s.written)
  {
    ConsumerDecidesCore(c, s, n);
  }

  lemma FreshStays(c: Config, s: State, e: Event, before: seq<Out>, seen: nat)
    requires Configured(c) && Core(c, s) && Fresh(c, s, before, seen)
    ensures Fresh(c, Step(c, s, e), before, seen)
  {
    if e.Produce? {
      ProducerKeepsConsumer(c, s, e.n, e.buf);
      hide Core, ProducerStep;
    } else {
      hide ProducerInv, IndexInv;
      ConsumerExtends(c, s, e.n);
    }
  }

  lemma {:induction false} FreshRuns(c: Config, s: State, es: seq<Event>, before: seq<Out>, seen: nat)
    requires Configured(c) && Inv(c, s) && Clean(c, s, es) && Fresh(c, s, before, seen)
    ensures Fresh(c, Exec(c, s, es), before, seen)
    decreases |es|
  {
    hide Content, Core, Fresh;
    if es != [] {
      StepPreserves(c, s, es[0]);
      FreshStays(c, s, es[0], before, seen);
      FreshRuns(c, Step(c, s, es[0]), es[1..], before, seen);
    }
  }

  /** Bounded staleness: however the producer runs in the meantime, the block a pop
      delivers starts within the newest max_bufsize bytes that were published when the
      pop measured the queue. */
  lemma FreshBlocks(c: Config, s: State, n: nat, es: seq<Event>)
    requires Configured(c) && Inv(c, s) && s.k.CPopValue? && Clean(c, s, [Consume(n)] + es)
    ensures var t := Exec(c, s, [Consume(n)] + es);
            |t.outs| > |s.outs| ==> t.outs[|s.outs|].Block? && s.written <= t.outs[|s.outs|].pos + c.window
  {
    hide Content, Core, ConsumerStep;
    assert ([Consume(n)] + es)[1..] == es;
    StepPreserves(c, s, Consume(n));
    FreshAtFirst(c, s, n);
    FreshRuns(c, Step(c, s, Consume(n)), es, s.outs, s.written);
  }
}
