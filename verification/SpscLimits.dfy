/** The runs that mark the limits of the theorems: a run that tears a frame for all sizes not excluded by SpscFrames, and a
    run whose paired loads straddle a wrap. */
module SpscLimits {
  import opened Bits
  import opened Sequences
  import opened Circular
  import opened Spsc
  import opened SpscSafety
  import opened SpscRuns
  import opened SpscFrames
  import opened SpscAttempts

  // ---- the limits

  function Zeros(n: nat): seq<byte> {
    seq(n, _ => 0)
  }

  /** A reachable state with nothing under way. */
  ghost predicate Rests(c: Config, es: seq<Event>, s: State)
    requires c.cap > 0 && c.frame > 0
  {
    Leads(c, Init(c), es, s) && Inv(c, s) && s.p.PIdle? && s.k.CIdle?
  }

  lemma RestsAtFirst(c: Config)
    requires Configured(c)
    ensures Rests(c, [], Init(c))
  {
    InitHolds(c);
  }

  lemma RestsAfterPush(c: Config, es: seq<Event>, s: State, n: nat) returns (es': seq<Event>, t: State)
    requires Configured(c) && Rests(c, es, s) && 0 < n <= Room(c, s) && n % c.frame == 0
    ensures Rests(c, es', t) && t.read == s.read && t.written == s.written + n && t.outs == s.outs
  {
    hide Leads, Inv, IndexInv, Repeat;
    var k;
    t, k := PushRuns(c, s, Zeros(n));
    es' := es + Repeat(Produce(n, Zeros(n)), k);
    LeadsAppend(c, Init(c), es, s, Repeat(Produce(n, Zeros(n)), k), t);
  }

  lemma RestsAfterPop(c: Config, es: seq<Event>, s: State, n: nat) returns (es': seq<Event>, t: State)
    requires Configured(c) && Rests(c, es, s) && 0 < n <= Length(s) <= c.window && n % c.frame == 0
    ensures Rests(c, es', t) && t.read == s.read + n && t.written == s.written
  {
    hide Leads, Inv, IndexInv, Repeat;
    var k;
    t, k := PopRuns(c, s, n);
    es' := es + Repeat(Consume(n), k);
    LeadsAppend(c, Init(c), es, s, Repeat(Consume(n), k), t);
  }

  /** In a reachable state the counters fix the indices. */
  lemma LeadsIndices(c: Config, es: seq<Event>, s: State)
    requires Configured(c) && Leads(c, Init(c), es, s)
    ensures Inv(c, s) && s.head == s.read % c.cap && s.tail == s.written % c.cap && |s.data| == c.cap
  {
    hide Content;
    InitHolds(c);
    assert 0 % c.cap == 0;
    ExecPreserves(c, Init(c), es);
    CountersExec(c, Init(c), es);
    RemainderAdvances(s.read, s.written - s.read, c.cap);
  }

  lemma RestsIndices(c: Config, es: seq<Event>, s: State)
    requires Configured(c) && Rests(c, es, s)
    ensures s.head == s.read % c.cap && s.tail == s.written % c.cap && |s.data| == c.cap
  {
    hide Leads, Inv;
    LeadsIndices(c, es, s);
  }

  /** The sizes that do not keep frames whole. */
  ghost predicate Tearing(c: Config) {
    Configured(c) && c.window % c.frame == 0 && c.frame <= c.window && !KeepsFrames(c)
  }

  /** The bytes of the whole frames that fit the array. */
  function WholeFrames(c: Config): int
    requires c.frame > 0
  {
    c.cap - c.cap % c.frame
  }

  lemma TearingFacts(c: Config)
    requires Tearing(c)
    ensures c.frame % c.frame == 0 && (WholeFrames(c) - c.frame) % c.frame == 0
    ensures c.frame <= c.window <= WholeFrames(c) - c.frame && 0 < c.cap - WholeFrames(c) < c.frame
    ensures (c.cap - c.window) % c.frame != 0
  {
    var f, q, r := c.frame, c.cap / c.frame, c.cap % c.frame;
    assert c.cap == q * f + r;
    RemainderUnique(f, f, 1, 0);
    RemainderUnique(q * f, f, q, 0);
    SumWhole(q * f, f, f);
    SumWhole(c.window, f, f);
    if c.window + f > q * f {
      MultiplesApart(q * f, c.window + f, f);
    }
    if (c.cap - c.window) % f == 0 {
      SumWhole(c.cap - c.window, c.window, f);
    }
  }

  /** A push of one frame stopped after its first chunk, at the end of the array. */
  lemma StopsAtTheEnd(c: Config, es: seq<Event>, s: State) returns (es': seq<Event>, t: State)
    requires Tearing(c) && Rests(c, es, s) && s.read == c.frame && s.written == WholeFrames(c)
    ensures Leads(c, Init(c), es', t) && Inv(c, t)
    ensures t.read == c.frame && t.written == c.cap && t.k == s.k
  {
    var buf := Zeros(c.frame);
    var e := Produce(c.frame, buf);
    TearingFacts(c);
    RestsIndices(c, es, s);
    RemainderUnique(s.written, c.cap, 0, s.written);
    hide Leads, Inv, IsPow2, KeepsFrames, Repeat, WholeFrames, Pushes;
    var t1 := PushStarts(c, s, buf);
    t := PushPass(c, t1, e);
    PushesLeads(c, t1, e, 2, t);
    LeadsAppend(c, Init(c), es, s, Repeat(e, 6), t1);
    LeadsAppend(c, Init(c), es + Repeat(e, 6), t1, Repeat(e, 2), t);
    es' := es + Repeat(e, 6) + Repeat(e, 2);
  }

  lemma StoppedInsideAFrame(c: Config) returns (es: seq<Event>, s: State)
    requires Tearing(c)
    ensures Leads(c, Init(c), es, s) && Inv(c, s)
    ensures s.read == c.frame && s.written == c.cap && s.k.CIdle?
  {
    TearingFacts(c);
    hide Leads, Inv, IsPow2, WholeFrames, KeepsFrames;
    RestsAtFirst(c);
    var es1, s1 := RestsAfterPush(c, [], Init(c), c.frame);
    var es2, s2 := RestsAfterPop(c, es1, s1, c.frame);
    var es3, s3 := RestsAfterPush(c, es2, s2, WholeFrames(c) - c.frame);
    es, s := StopsAtTheEnd(c, es3, s3);
  }

  /** For all other sizes a pop that meets a push between its two chunks can skip a
      fraction of a frame, with every assumption of Safety met. */
  lemma FramesTear(c: Config) returns (es: seq<Event>)
    requires Tearing(c)
    ensures Clean(c, Init(c), es) && !OutsWhole(c, Exec(c, Init(c), es).outs)
  {
    TearingFacts(c);
    var es1, s := StoppedInsideAFrame(c);
    hide Inv, IsPow2, Leads, Repeat;
    var t, k := PopRuns(c, s, c.frame);
    LeadsAppend(c, Init(c), es1, s, Repeat(Consume(c.frame), k), t);
    es := es1 + Repeat(Consume(c.frame), k);
    LeadsMeans(c, Init(c), es, t);
    var torn := t.outs[|t.outs| - 1];
    assert torn.pos == c.cap - c.window && !Whole(c, torn.pos);
  }

  /** Exactly when frames stay whole on the shared ring of a stream: in every interleaving,
      if and only if the capacity is a whole number of frames or less than one frame
      above max_bufsize. */
  lemma FramesWholeIff(c: Config)
    requires Configured(c) && c.window % c.frame == 0 && c.frame <= c.window
    ensures c.cap % c.frame == 0 || c.cap < c.window + c.frame
            <==> forall es | Clean(c, Init(c), es) :: OutsWhole(c, Exec(c, Init(c), es).outs)
  {
    if KeepsFrames(c) {
      forall es | Clean(c, Init(c), es)
        ensures OutsWhole(c, Exec(c, Init(c), es).outs)
      {
        FramesStayWhole(c, es);
      }
    } else {
      var es := FramesTear(c);
    }
  }

  /** `c` is the configuration of a stream with frames of `f` bytes: max_bufsize is one or
      more frames, and the capacity is the least power of two not below it. */
  ghost predicate Sized(c: Config, f: nat) {
    && Configured(c) && c.frame == f
    && f <= c.window <= c.cap < 2 * c.window && c.window % f == 0
  }

  lemma TearingConfig(f: nat) returns (c: Config)
    requires 0 < f <= 0x2000_0000_0000_0000 && f % 2 == 0 && !IsPow2(f)
    ensures Tearing(c) && Sized(c, f)
  {
    var cap := Pow2Above(4 * f);
    MaxCapacityIsPow2();
    if cap > MAX_CAPACITY {
      Pow2Gap(MAX_CAPACITY, cap);
    }
    Pow2Divisors(cap, f);
    var q := cap / f;
    assert cap == q * f + cap % f && cap - cap % f - f == (q - 1) * f;
    RemainderUnique(cap - cap % f - f, f, q - 1, 0);
    c := Config(cap, f, cap - cap % f - f);
  }

  /** For which frames they stay whole whatever max_bufsize is: for every max_bufsize and
      every interleaving, if and only if the frame size is a power of two. */
  lemma FramesWholeExactly(f: nat)
    requires 0 < f <= 0x2000_0000_0000_0000 && f % 2 == 0
    ensures IsPow2(f) <==>
            forall c, es | Sized(c, f) && Clean(c, Init(c), es) :: OutsWhole(c, Exec(c, Init(c), es).outs)
  {
    if IsPow2(f) {
      forall c, es | Sized(c, f) && Clean(c, Init(c), es)
        ensures OutsWhole(c, Exec(c, Init(c), es).outs)
      {
        Pow2Divisors(c.cap, f);
        FramesStayWhole(c, es);
      }
    } else {
      var c := TearingConfig(f);
      var es := FramesTear(c);
    }
  }

  // ---- a straddled wrap

  const MONO := Config(8, 2, 8)

  lemma MonoFramed()
    ensures Framed(MONO)
  {
    assert IsPow2(4);
  }

  /** Room for one byte, `head` beyond `tail`. */
  lemma AlmostFull() returns (es: seq<Event>, s: State)
    ensures Rests(MONO, es, s) && s.read == 6 && s.written == 12 && s.head == 6 && s.tail == 4
  {
    var c := MONO;
    MonoFramed();
    hide Leads, Inv;
    RestsAtFirst(c);
    var es1, s1 := RestsAfterPush(c, [], Init(c), 6);
    var es2, s2 := RestsAfterPop(c, es1, s1, 6);
    es, s := RestsAfterPush(c, es2, s2, 6);
    RestsIndices(c, es, s);
  }

  /** The comparison of a guard, then a whole pop, before the guard's second load. */
  lemma AboutToStraddle() returns (es: seq<Event>, s: State)
    ensures Leads(MONO, Init(MONO), es, s) && Inv(MONO, s)
    ensures s.p == PPeekValue(4, true) && s.read == 8 && s.written == 12 && s.head == 0 && s.tail == 4 && s.k.CIdle?
  {
    var c, e := MONO, Produce(4, Zeros(4));
    MonoFramed();
    var es0, s0 := AlmostFull();
    var s1, s2 := s0.(p := PPeekCompare(4)), s0.(p := PPeekValue(4, true));
    hide Content, Leads, Repeat;
    LeadsStay(c, s2, e);
    LeadsStep(c, s1, e, 1, s2);
    LeadsStep(c, s0, e, 2, s2);
    ExecPreservesLeads(c, s0, Repeat(e, 2), s2);
    var s3, k := PopRuns(c, s2, 2);
    var pop := Repeat(Consume(2), k);
    LeadsAppend(c, Init(c), es0, s0, Repeat(e, 2), s2);
    LeadsAppend(c, Init(c), es0 + Repeat(e, 2), s2, pop, s3);
    es, s := es0 + Repeat(e, 2) + pop, s3;
    hide Inv;
    LeadsIndices(c, es, s);
  }

  /** The guard has let a push of two frames through with room for one and a half:
      ringbuf_push drops a byte and stores `head`. */
  lemma PushDropsAByte(s: State) returns (t: State)
    requires Inv(MONO, s) && Configured(MONO)
    requires s.p == PPeekValue(4, true) && s.read == 8 && s.written == 12 && s.head == 0 && s.tail == 4 && s.k.CIdle?
    ensures var e := Produce(4, Zeros(4));
            Straddles(s, e) && Permitted(MONO, s, e) && Leads(MONO, Step(MONO, s, e), Repeat(e, 4), t)
    ensures t.p == PCopyChunk(Zeros(4), 0, 4) && t.head == 1 && t.read == 9 && t.written == 12 && t.k.CIdle?
    ensures Inv(MONO, t) && |t.stream| == 16
  {
    var c, buf := MONO, Zeros(4);
    var e := Produce(4, buf);
    var s1 := s.(p := PReady(4));
    var s2 := s.(p := PPushCompare(buf), stream := s.stream + buf);
    var s3 := s2.(p := PPushValue(buf, false));
    var s4 := s2.(p := PDropOldest(buf, 1));
    t := s2.(head := 1, read := 9, p := PCopyChunk(buf, 0, 4));
    MaskWraps(1, 8);
    DropKeepsInv(s, t);
    assert |s.stream| == 12;
    hide Inv, IsPow2, Repeat, Leads;
    assert Step(c, s, e) == s1;
    LeadsStay(c, t, e);
    LeadsStep(c, s4, e, 1, t);
    LeadsStep(c, s3, e, 2, t);
    LeadsStep(c, s2, e, 3, t);
    LeadsStep(c, s1, e, 4, t);
  }

  lemma DropKeepsInv(s: State, t: State)
    requires Inv(MONO, s) && s.k.CIdle? && s.p == PPeekValue(4, true)
    requires s.read == 8 && s.written == 12 && s.head == 0 && s.tail == 4
    requires t == s.(head := 1, read := 9, p := PCopyChunk(Zeros(4), 0, 4), stream := s.stream + Zeros(4))
    ensures Inv(MONO, t)
  {
    hide Window;
    ArrayAdvances(s.data, 0, 8, 12, s.stream, 1);
    assert t.stream[9..12] == s.stream[9..12];
    OutsGrow(s.outs, s.stream, 8, t.stream, 9);
    assert Zeros(4)[0..] == Zeros(4) == t.stream[12..];
  }

  /** From there the push ends, and a pop of one frame delivers the halves of two. */
  lemma PopsTornFrame(s: State) returns (t: State, es: seq<Event>)
    requires Configured(MONO) && Inv(MONO, s) && s.k.CIdle? && |s.stream| == 16
    requires s.p == PCopyChunk(Zeros(4), 0, 4) && s.read == 9
    ensures Leads(MONO, s, es, t) && t.outs != [] && t.outs[|t.outs| - 1] == Block(2, 9, s.stream[9..11])
  {
    var c, e := MONO, Produce(4, Zeros(4));
    hide Inv, Repeat, Leads, Pushes, Configured;
    var u, k := PushFinishes(c, s, e);
    assert Length(u) == 7 && PopStart(c, u) == 9 && c.cap > 0 && c.frame > 0 && c.window >= 2 && 2 % c.frame == 0;
    hide *;
    PushesLeads(c, s, e, k, u);
    var l;
    t, l := PopRuns(c, u, 2);
    LeadsAppend(c, s, Repeat(e, k), u, Repeat(Consume(2), l), t);
    es := Repeat(e, k) + Repeat(Consume(2), l);
  }

  /** Without the assumption on paired loads frames can tear even when the capacity is
      a whole number of frames: one straddled wrap in an otherwise clean run is enough. */
  lemma StraddlingCanTear() returns (before: seq<Event>, e: Event, after: seq<Event>)
    ensures var c := MONO;
            && Framed(c) && Clean(c, Init(c), before)
            && var s := Exec(c, Init(c), before);
            && Permitted(c, s, e) && Straddles(s, e)
            && Clean(c, Step(c, s, e), after)
            && !OutsWhole(c, Exec(c, Step(c, s, e), after).outs)
  {
    var c := MONO;
    MonoFramed();
    var s;
    before, s := AboutToStraddle();
    e := Produce(4, Zeros(4));
    var t := PushDropsAByte(s);
    hide Inv, Repeat, Leads, IsPow2;
    var v, rest := PopsTornFrame(t);
    LeadsAppend(c, Step(c, s, e), Repeat(e, 4), t, rest, v);
    after := Repeat(e, 4) + rest;
    LeadsMeans(c, Init(c), before, s);
    LeadsMeans(c, Step(c, s, e), after, v);
    var torn := v.outs[|v.outs| - 1];
    assert torn.pos == 9 && !Whole(c, torn.pos);
  }
}
