/** One attempt of one side, run to its end while the other side rests: what a guarded
    push and a guarded pop come to, and what a guard that fails comes to. */
module SpscAttempts {
  import opened Bits
  import opened Sequences
  import opened Circular
  import opened Spsc
  import opened SpscSafety
  import opened SpscRuns

  // ---- composing runs

  function Repeat(e: Event, k: nat): seq<Event> {
    if k == 0 then [] else [e] + Repeat(e, k - 1)
  }

  /** From `s` the events of `es`, which keep to the assumptions, lead to `t`. */
  ghost predicate Leads(c: Config, s: State, es: seq<Event>, t: State)
    requires c.cap > 0 && c.frame > 0
  {
    Clean(c, s, es) && Exec(c, s, es) == t
  }

  lemma LeadsStep(c: Config, s: State, e: Event, k: nat, t: State)
    requires c.cap > 0 && c.frame > 0 && k > 0
    requires Permitted(c, s, e) && !Straddles(s, e) && Leads(c, Step(c, s, e), Repeat(e, k - 1), t)
    ensures Leads(c, s, Repeat(e, k), t)
  {
    assert Repeat(e, k)[1..] == Repeat(e, k - 1);
  }

  lemma {:induction false} ExecAppends(c: Config, s: State, a: seq<Event>, b: seq<Event>)
    requires c.cap > 0
    ensures Exec(c, s, a + b) == Exec(c, Exec(c, s, a), b)
    decreases |a|
  {
    if a == [] {
      assert a + b == b;
    } else {
      assert (a + b)[1..] == a[1..] + b;
      ExecAppends(c, Step(c, s, a[0]), a[1..], b);
    }
  }

  lemma {:induction false} CleanAppends(c: Config, s: State, a: seq<Event>, b: seq<Event>)
    requires c.cap > 0 && c.frame > 0
    requires Clean(c, s, a) && Clean(c, Exec(c, s, a), b)
    ensures Clean(c, s, a + b)
    decreases |a|
  {
    if a == [] {
      assert a + b == b;
    } else {
      assert (a + b)[1..] == a[1..] + b;
      CleanAppends(c, Step(c, s, a[0]), a[1..], b);
    }
  }

  lemma LeadsMeans(c: Config, s: State, es: seq<Event>, t: State)
    requires c.cap > 0 && c.frame > 0 && Leads(c, s, es, t)
    ensures Clean(c, s, es) && Exec(c, s, es) == t
  {
  }

  // ---- uninterrupted attempts

  lemma LeadsStay(c: Config, s: State, e: Event)
    requires c.cap > 0 && c.frame > 0
    ensures Leads(c, s, Repeat(e, 0), s)
  {
  }

  lemma LeadsAppend(c: Config, s: State, a: seq<Event>, t: State, b: seq<Event>, u: State)
    requires c.cap > 0 && c.frame > 0
    requires Leads(c, s, a, t) && Leads(c, t, b, u)
    ensures Leads(c, s, a + b, u)
  {
    ExecAppends(c, s, a, b);
    CleanAppends(c, s, a, b);
  }

  lemma {:induction false} RepeatSum(e: Event, a: nat, b: nat)
    ensures Repeat(e, a) + Repeat(e, b) == Repeat(e, a + b)
  {
    if a == 0 {
      assert [] + Repeat(e, b) == Repeat(e, b);
    } else {
      RepeatSum(e, a - 1, b);
      assert [e] + Repeat(e, a - 1) + Repeat(e, b) == [e] + (Repeat(e, a - 1) + Repeat(e, b));
    }
  }

  lemma LeadsOn(c: Config, s: State, e: Event, a: nat, t: State, b: nat, u: State)
    requires c.cap > 0 && c.frame > 0
    requires Leads(c, s, Repeat(e, a), t) && Leads(c, t, Repeat(e, b), u)
    ensures Leads(c, s, Repeat(e, a + b), u)
  {
    LeadsAppend(c, s, Repeat(e, a), t, Repeat(e, b), u);
    RepeatSum(e, a, b);
  }

  lemma ExecPreservesLeads(c: Config, s: State, es: seq<Event>, t: State)
    requires Configured(c) && Inv(c, s) && Leads(c, s, es, t)
    ensures Inv(c, t)
  {
    hide Inv;
    ExecPreserves(c, s, es);
  }

  /** A push has its bytes and is under way. */
  predicate Pushing(p: Producer) {
    p.PPushCompare? || p.PPushValue? || p.PCopyChunk? || p.PPublishTail?
  }

  /** In `k` steps, each of a push under way, `s` leads to `t`. */
  ghost predicate Pushes(c: Config, s: State, e: Event, k: nat, t: State)
    requires c.cap > 0 && c.frame > 0
    decreases k
  {
    if k == 0 then s == t else Pushing(s.p) && !Straddles(s, e) && Pushes(c, Step(c, s, e), e, k - 1, t)
  }

  lemma {:induction false} PushesLeads(c: Config, s: State, e: Event, k: nat, t: State)
    requires c.cap > 0 && c.frame > 0 && e.Produce? && Pushes(c, s, e, k, t)
    ensures Leads(c, s, Repeat(e, k), t)
    decreases k
  {
    if k == 0 {
      LeadsStay(c, t, e);
    } else {
      hide Leads, Repeat, ProducerStep, ConsumerStep;
      PushesLeads(c, Step(c, s, e), e, k - 1, t);
      LeadsStep(c, s, e, k, t);
    }
  }

  lemma {:induction false} PushesOn(c: Config, s: State, e: Event, a: nat, t: State, b: nat, u: State)
    requires c.cap > 0 && c.frame > 0
    requires Pushes(c, s, e, a, t) && Pushes(c, t, e, b, u)
    ensures Pushes(c, s, e, a + b, u)
    decreases a
  {
    hide ProducerStep, ConsumerStep, Straddles, Pushing;
    if a > 0 {
      PushesOn(c, Step(c, s, e), e, a - 1, t, b, u);
    }
  }

  /** The last step of the producer's guard, nothing having moved since the first. */
  lemma GuardStep(c: Config, s: State, m: nat, n: nat, buf: seq<byte>)
    requires Configured(c) && IndexInv(c, s) && s.p.PIdle?
    ensures ProducerStep(c, s.(p := PPeekValue(m, s.head > s.tail)), n, buf)
            == if m <= Room(c, s) then s.(p := PReady(m)) else s
  {
    AvailableIsRoom(c, s, s.head > s.tail);
    hide AvailableValue, IndexInv;
  }

  /** The guard of a push that finds room. */
  lemma PushAnnounces(c: Config, s: State, e: Event) returns (t: State)
    requires Configured(c) && IndexInv(c, s) && s.p.PIdle?
    requires e.Produce? && e.n % c.frame == 0 && e.n <= Room(c, s)
    ensures t == s.(p := PReady(e.n)) && Leads(c, s, Repeat(e, 3), t)
  {
    var n, straight := e.n, s.head > s.tail;
    AvailableIsRoom(c, s, straight);
    hide IsPow2, AvailableValue, IndexInv, Repeat, Leads;
    t := s.(p := PReady(n));
    var s2 := s.(p := PPeekValue(n, straight));
    var s1 := s.(p := PPeekCompare(n));
    LeadsStay(c, t, e);
    LeadsStep(c, s2, e, 1, t);
    LeadsStep(c, s1, e, 2, t);
    LeadsStep(c, s, e, 3, t);
  }

  /** The guard of a push that finds no room, to its end: the ring and the stream stay. */
  lemma PushRefused(c: Config, s: State, e: Event)
    requires Configured(c) && IndexInv(c, s) && s.p.PIdle?
    requires e.Produce? && e.n % c.frame == 0 && e.n > Room(c, s)
    ensures Leads(c, s, Repeat(e, 3), s)
  {
    var n, straight := e.n, s.head > s.tail;
    AvailableIsRoom(c, s, straight);
    hide IsPow2, AvailableValue, IndexInv, Repeat, Leads;
    var s2 := s.(p := PPeekValue(n, straight));
    var s1 := s.(p := PPeekCompare(n));
    LeadsStay(c, s, e);
    LeadsStep(c, s2, e, 1, s);
    LeadsStep(c, s1, e, 2, s);
    LeadsStep(c, s, e, 3, s);
  }

  /** The branches of a push that finds room, up to its first copy. */
  lemma PushLoads(c: Config, s: State, e: Event) returns (t: State)
    requires Configured(c) && Inv(c, s) && e.Produce? && s.p.PPushCompare?
    ensures t == s.(p := StartCopy(s.p.buf, s.tail))
    ensures Pushes(c, s, e, 2, t) && Inv(c, t)
  {
    var buf, straight := s.p.buf, s.head > s.tail;
    hide Content, ConsumerInv;
    AvailableIsRoom(c, s, straight);
    assert c.cap % 2 == 0 && |buf| < c.cap - 1;
    hide Core, IsPow2, AvailableValue, StartCopy;
    t := s.(p := StartCopy(buf, s.tail));
    var s1 := s.(p := PPushValue(buf, straight));
    assert Step(c, s, e) == s1 && Step(c, s1, e) == t;
    PushesOnce(c, s1, e, t);
    PushesOnce(c, s, e, s1);
    PushesOn(c, s, e, 1, s1, 1, t);
    PushesKeepInv(c, s, e, 2, t);
  }

  lemma PushesOnce(c: Config, s: State, e: Event, t: State)
    requires c.cap > 0 && c.frame > 0 && Pushing(s.p) && !Straddles(s, e) && Step(c, s, e) == t
    ensures Pushes(c, s, e, 1, t)
  {
    hide ProducerStep, ConsumerStep;
    assert Pushes(c, t, e, 0, t);
  }

  lemma PushesKeepInv(c: Config, s: State, e: Event, k: nat, t: State)
    requires Configured(c) && e.Produce? && Inv(c, s) && Pushes(c, s, e, k, t)
    ensures Inv(c, t)
  {
    hide Inv, Leads;
    PushesLeads(c, s, e, k, t);
    ExecPreservesLeads(c, s, Repeat(e, k), t);
  }

  /** One pass of the copy: up to the end of the array at most. */
  lemma PushPass(c: Config, s: State, e: Event) returns (t: State)
    requires Configured(c) && Inv(c, s) && s.p.PCopyChunk? && e.Produce?
    ensures Pushes(c, s, e, 2, t) && Inv(c, t)
    ensures s.p.off < |s.p.buf| && s.tail < c.cap
    ensures t == s.(p := t.p, data := t.data, tail := t.tail,
                    written := s.written + Min(c.cap - s.tail, |s.p.buf| - s.p.off))
    ensures if t.p.PIdle? then t.written == |t.stream|
            else t.p.PCopyChunk? && t.p.buf == s.p.buf && s.p.off < t.p.off < |t.p.buf|
  {
    var chunk := ProducerCopiesCore(c, s, e.n, e.buf);
    ProducerCopies(c, s, e.n, e.buf);
    var s1 := Step(c, s, e);
    ProducerPublishesCore(c, s1, e.n, e.buf);
    ProducerPublishes(c, s1, e.n, e.buf);
    t := Step(c, s1, e);
    assert 0 < |chunk| == Min(c.cap - s.tail, |s.p.buf| - s.p.off);
    hide Core, ArrayInv, PopInv, OutsInv, Pushes;
    PushesOnce(c, s1, e, t);
    PushesOnce(c, s, e, s1);
    PushesOn(c, s, e, 1, s1, 1, t);
  }

  /** The copies and stores of a push, to its end. */
  lemma {:induction false} PushFinishes(c: Config, s: State, e: Event) returns (t: State, k: nat)
    requires Configured(c) && Inv(c, s) && s.p.PCopyChunk? && e.Produce? && s.p.off <= |s.p.buf|
    ensures Pushes(c, s, e, k, t) && Inv(c, t)
    ensures t == s.(p := PIdle, data := t.data, tail := t.tail, written := |s.stream|)
    decreases |s.p.buf| - s.p.off
  {
    hide Inv, Pushes;
    t := PushPass(c, s, e);
    k := 2;
    if !t.p.PIdle? {
      var t1, k1 := PushFinishes(c, t, e);
      PushesOn(c, s, e, k, t, k1, t1);
      t, k := t1, k + k1;
    }
  }

  /** A push that has its bytes, to its end. */
  lemma PushBody(c: Config, s: State, e: Event) returns (t: State, k: nat)
    requires Configured(c) && Inv(c, s) && s.p.PPushCompare? && e.Produce?
    ensures Pushes(c, s, e, k, t) && Inv(c, t)
    ensures t == s.(p := PIdle, data := t.data, tail := t.tail, written := |s.stream|)
  {
    assert s.p.buf == [] ==> s.written == |s.stream|;
    hide Inv, Pushes;
    t := PushLoads(c, s, e);
    k := 2;
    if s.p.buf != [] {
      var t1, k1 := PushFinishes(c, t, e);
      PushesOn(c, s, e, k, t, k1, t1);
      t, k := t1, k + k1;
    }
  }

  /** The guard of a push that finds room, and the step that takes its bytes. */
  lemma PushBegins(c: Config, s: State, buf: seq<byte>) returns (t: State)
    requires Configured(c) && Inv(c, s) && s.p.PIdle?
    requires |buf| % c.frame == 0 && |buf| <= Room(c, s)
    ensures t == s.(p := PPushCompare(buf), stream := s.stream + buf)
    ensures Leads(c, s, Repeat(Produce(|buf|, buf), 4), t) && Inv(c, t)
  {
    var e := Produce(|buf|, buf);
    hide Content, ProducerInv, ConsumerInv, IsPow2, Leads, Repeat;
    var t1 := PushAnnounces(c, s, e);
    t := s.(p := PPushCompare(buf), stream := s.stream + buf);
    hide Inv;
    LeadsStay(c, t, e);
    LeadsStep(c, t1, e, 1, t);
    LeadsOn(c, s, e, 3, t1, 1, t);
    ExecPreservesLeads(c, s, Repeat(e, 4), t);
  }

  /** The guard and the branches of a push that finds room, up to its first copy. */
  lemma PushStarts(c: Config, s: State, buf: seq<byte>) returns (t: State)
    requires Configured(c) && Inv(c, s) && s.p.PIdle?
    requires |buf| % c.frame == 0 && |buf| <= Room(c, s)
    ensures t == s.(p := StartCopy(buf, s.tail), stream := s.stream + buf)
    ensures Leads(c, s, Repeat(Produce(|buf|, buf), 6), t) && Inv(c, t)
  {
    var e := Produce(|buf|, buf);
    hide Inv, Leads, Repeat, Pushes;
    var t1 := PushBegins(c, s, buf);
    t := PushLoads(c, t1, e);
    PushesLeads(c, t1, e, 2, t);
    LeadsOn(c, s, e, 4, t1, 2, t);
  }

  /** A push of whole frames that finds room, run to its end without the consumer
      moving, appends its bytes and leaves the consumer's side alone. */
  lemma PushRuns(c: Config, s: State, buf: seq<byte>) returns (t: State, k: nat)
    requires Configured(c) && Inv(c, s) && s.p.PIdle?
    requires |buf| % c.frame == 0 && |buf| <= Room(c, s)
    ensures Leads(c, s, Repeat(Produce(|buf|, buf), k), t) && Inv(c, t)
    ensures t == s.(data := t.data, tail := t.tail, written := s.written + |buf|, stream := s.stream + buf)
  {
    assert |s.stream| == s.written;
    hide Inv, Leads, Repeat, Pushes;
    var e := Produce(|buf|, buf);
    var t1 := PushBegins(c, s, buf);
    t, k := PushBody(c, t1, e);
    PushesLeads(c, t1, e, k, t);
    LeadsOn(c, s, e, 4, t1, k, t);
    k := 4 + k;
  }

  // ---- uninterrupted pops

  /** Where a pop that measures the queue now starts to read: max_bufsize bytes before
      the published end when there are more than that, else at the oldest byte. */
  function PopStart(c: Config, s: State): int {
    if Length(s) > c.window then s.written - c.window else s.read
  }

  /** The guard and the loads of a pop that finds its bytes, up to its branch. */
  lemma PopMeasures(c: Config, s: State, n: nat) returns (t: State)
    requires Configured(c) && Inv(c, s) && s.k.CIdle?
    requires n <= Length(s) && n <= c.window && n % c.frame == 0
    ensures t == s.(k := t.k) && t.k.CPopValue? && t.k.n == n && !Straddles(t, Consume(n))
    ensures PopStart(c, t) == PopStart(c, s)
    ensures Leads(c, s, Repeat(Consume(n), 4), t) && Inv(c, t)
  {
    var e, straight := Consume(n), s.head <= s.tail;
    hide Content;
    RemainingIsLength(c, s, straight);
    hide IsPow2, RemainingValue, Inv, Repeat, Leads;
    t := s.(k := CPopValue(n, straight));
    var s3 := s.(k := CPopCompare(n));
    var s2 := s.(k := CPeekValue(n, straight));
    var s1 := s.(k := CPeekCompare(n));
    LeadsStay(c, t, e);
    LeadsStep(c, s3, e, 1, t);
    LeadsStep(c, s2, e, 2, t);
    LeadsStep(c, s1, e, 3, t);
    LeadsStep(c, s, e, 4, t);
    ExecPreservesLeads(c, s, Repeat(e, 4), t);
  }

  /** The guard of a pop that finds too few bytes, to its end: the request is answered with
      silence and the ring stays. */
  lemma PopMisses(c: Config, s: State, n: nat)
    requires Configured(c) && IndexInv(c, s) && s.k.CIdle?
    requires n > Length(s) && n <= c.window && n % c.frame == 0
    ensures Leads(c, s, Repeat(Consume(n), 3), s.(outs := s.outs + [Miss(n)]))
  {
    var e, straight := Consume(n), s.head <= s.tail;
    RemainingIsLength(c, s, straight);
    hide IsPow2, RemainingValue, IndexInv, Repeat, Leads;
    var t := s.(outs := s.outs + [Miss(n)]);
    var s2 := s.(k := CPeekValue(n, straight));
    var s1 := s.(k := CPeekCompare(n));
    LeadsStay(c, t, e);
    LeadsStep(c, s2, e, 1, t);
    LeadsStep(c, s1, e, 2, t);
    LeadsStep(c, s, e, 3, t);
  }

  /** The branch of a pop, and its skip, up to its first copy. */
  lemma PopDecides(c: Config, s: State, e: Event) returns (t: State, k: nat)
    requires Configured(c) && Inv(c, s) && s.k.CPopValue?
    requires e.Consume? && !Straddles(s, e)
    ensures PopStart(c, s) >= 0
    ensures t == StartRead(s.(head := t.head, read := PopStart(c, s)), s.k.n, s.k.n)
    ensures Leads(c, s, Repeat(e, k), t)
  {
    hide Content, IsPow2, Repeat, Leads, IndexInv, ProducerInv, Straddles;
    ConsumerDecidesCore(c, s, e.n);
    var s1 := Step(c, s, e);
    if Length(s) > c.window {
      ConsumerSkipsCore(c, s1, e.n);
      t, k := Step(c, s1, e), 2;
      hide Core, ConsumerStep, Wrap;
      LeadsStay(c, t, e);
      LeadsSkip(c, s1, e, t);
    } else {
      t, k := s1, 1;
      hide Core, ConsumerStep;
      LeadsStay(c, t, e);
    }
    LeadsStep(c, s, e, k, t);
  }

  lemma LeadsSkip(c: Config, s: State, e: Event, t: State)
    requires c.cap > 0 && c.frame > 0 && s.k.CSkip? && e.Consume? && t == Step(c, s, e)
    ensures Leads(c, s, Repeat(e, 1), t)
  {
    hide ConsumerStep, Repeat;
    LeadsStay(c, t, e);
    LeadsStep(c, s, e, 1, t);
  }

  /** The copies and stores of a pop, to its end. */
  lemma {:induction false} PopFinishes(c: Config, s: State, e: Event) returns (t: State, k: nat)
    requires Configured(c) && Inv(c, s) && s.k.CCopyChunk? && e.Consume?
    ensures Leads(c, s, Repeat(e, k), t) && Inv(c, t)
    ensures s.k.start + s.k.n <= |s.stream|
    ensures t == s.(k := CIdle, head := t.head, read := s.k.start + s.k.n,
                    outs := s.outs + [Block(s.k.n, s.k.start, s.stream[s.k.start..s.k.start + s.k.n])])
    decreases s.k.m - |s.k.acc|
  {
    hide ArrayInv, RestInv, OutsInv, Repeat, Leads, IndexInv, ProducerInv;
    var chunk := ConsumerCopiesCore(c, s, e.n);
    assert s.k.m == s.k.n && |s.k.acc| < s.k.m && |chunk| > 0;
    hide Core;
    ConsumerCopies(c, s, e.n);
    var s1 := Step(c, s, e);
    assert Slices(s1.k.acc, s1.stream, s1.k.start);
    hide Content;
    ConsumerPublishesCore(c, s1, e.n);
    ConsumerPublishes(c, s1, e.n);
    var s2 := Step(c, s1, e);
    if s2.k.CIdle? {
      t, k := s2, 2;
      LeadsStay(c, t, e);
    } else {
      t, k := PopFinishes(c, s2, e);
      k := k + 2;
    }
    LeadsStep(c, s1, e, k - 1, t);
    LeadsStep(c, s, e, k, t);
  }

  /** From the branch of a pop to its end. */
  lemma PopReads(c: Config, s: State, e: Event) returns (t: State, k: nat)
    requires Configured(c) && Inv(c, s) && s.k.CPopValue?
    requires e.Consume? && !Straddles(s, e)
    ensures Leads(c, s, Repeat(e, k), t) && Inv(c, t)
    ensures 0 <= PopStart(c, s) <= PopStart(c, s) + s.k.n <= |s.stream|
    ensures var start := PopStart(c, s);
            t == s.(k := CIdle, head := t.head, read := start + s.k.n,
                    outs := s.outs + [Block(s.k.n, start, s.stream[start..start + s.k.n])])
  {
    hide Inv, IndexInv, Repeat, Leads, Straddles, PopStart;
    t, k := PopDecides(c, s, e);
    ExecPreservesLeads(c, s, Repeat(e, k), t);
    if s.k.n == 0 {
      ReadInStream(c, t);
      assert s.stream[t.read..t.read] == [];
    } else {
      var t1, k1 := PopFinishes(c, t, e);
      LeadsOn(c, s, e, k, t, k1, t1);
      t, k := t1, k + k1;
    }
  }

  lemma ReadInStream(c: Config, s: State)
    requires Inv(c, s)
    ensures s.read <= |s.stream|
  {
  }

  /** A pop that finds its bytes, run to its end without the producer moving, hands
      out the oldest of the newest max_bufsize bytes and forgets those before them. */
  lemma PopRuns(c: Config, s: State, n: nat) returns (t: State, k: nat)
    requires Configured(c) && Inv(c, s) && s.k.CIdle?
    requires n <= Length(s) && n <= c.window && n % c.frame == 0
    ensures Leads(c, s, Repeat(Consume(n), k), t) && Inv(c, t)
    ensures 0 <= PopStart(c, s) <= PopStart(c, s) + n <= |s.stream|
    ensures var start := PopStart(c, s);
            t == s.(head := t.head, read := start + n,
                    outs := s.outs + [Block(n, start, s.stream[start..start + n])])
  {
    assert c.cap > 0 && c.frame > 0;
    hide *;
    var e := Consume(n);
    var t1 := PopMeasures(c, s, n);
    t, k := PopReads(c, t1, e);
    LeadsOn(c, s, e, 4, t1, k, t);
    k := 4 + k;
  }
}
