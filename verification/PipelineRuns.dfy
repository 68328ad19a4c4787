/** Delivery on the raw audio path: what each of the four threads comes to when it runs and
    the others rest, and runs from capture to output that lose nothing. */
module PipelineRuns {
  import opened Bits
  import opened Sequences
  import opened Spsc
  import opened SpscSafety
  import opened SpscRuns
  import opened SpscAttempts
  import opened Pipeline

  // ---- composing runs

  function Times(m: Move, k: nat): seq<Move> {
    if k == 0 then [] else [m] + Times(m, k - 1)
  }

  /** From `s` the moves `ms`, which keep to the assumptions, lead to `t`. */
  ghost predicate Reaches(u: Setup, s: System, ms: seq<Move>, t: System)
    requires SetUp(u)
  {
    AllAllowed(u, s, ms) && After(u, s, ms) == t
  }

  lemma ReachesStay(u: Setup, s: System, m: Move)
    requires SetUp(u)
    ensures Reaches(u, s, Times(m, 0), s)
  {
  }

  lemma ReachesStep(u: Setup, s: System, m: Move, k: nat, t: System)
    requires SetUp(u) && k > 0 && Allowed(u, s, m) && Reaches(u, Next(u, s, m), Times(m, k - 1), t)
    ensures Reaches(u, s, Times(m, k), t)
  {
    hide Allowed, Next;
    assert Times(m, k)[1..] == Times(m, k - 1);
  }

  lemma {:induction false} ReachesAppend(u: Setup, s: System, a: seq<Move>, t: System, b: seq<Move>, v: System)
    requires SetUp(u) && Reaches(u, s, a, t) && Reaches(u, t, b, v)
    ensures Reaches(u, s, a + b, v)
    decreases |a|
  {
    hide Allowed, Next;
    if a == [] {
      assert a + b == b;
    } else {
      assert (a + b)[1..] == a[1..] + b;
      ReachesAppend(u, Next(u, s, a[0]), a[1..], t, b, v);
    }
  }

  lemma {:induction false} TimesSum(m: Move, a: nat, b: nat)
    ensures Times(m, a) + Times(m, b) == Times(m, a + b)
  {
    if a == 0 {
      assert [] + Times(m, b) == Times(m, b);
    } else {
      TimesSum(m, a - 1, b);
      assert [m] + Times(m, a - 1) + Times(m, b) == [m] + (Times(m, a - 1) + Times(m, b));
    }
  }

  lemma ReachesOn(u: Setup, s: System, m: Move, a: nat, t: System, b: nat, v: System)
    requires SetUp(u) && Reaches(u, s, Times(m, a), t) && Reaches(u, t, Times(m, b), v)
    ensures Reaches(u, s, Times(m, a + b), v)
  {
    hide Reaches;
    ReachesAppend(u, s, Times(m, a), t, Times(m, b), v);
    TimesSum(m, a, b);
  }

  lemma ReachesInv(u: Setup, s: System, ms: seq<Move>, t: System)
    requires SetUp(u) && SystemInv(u, s) && Reaches(u, s, ms, t)
    ensures SystemInv(u, t)
  {
    hide SystemInv;
    SystemRuns(u, s, ms);
  }

  // ---- the capture callback

  /** The three steps of a guard, in one thread. */
  lemma CaptureGuards(u: Setup, s: System, m: Move, p2: Producer, t: System)
    requires SetUp(u) && m.CaptureMoves? && m.n == |m.input| && m.n % u.capture.frame == 0
    requires s.capture.p.PIdle? && p2 == PPeekValue(m.n, s.capture.head > s.capture.tail)
    requires t == Next(u, s.(capture := s.capture.(p := p2)), m)
    ensures Reaches(u, s, Times(m, 3), t)
  {
    var s1 := s.(capture := s.capture.(p := PPeekCompare(m.n)));
    var s2 := s.(capture := s.capture.(p := p2));
    assert Next(u, s, m) == s1 && Next(u, s1, m) == s2;
    assert Allowed(u, s, m) && Allowed(u, s1, m) && Allowed(u, s2, m);
    hide Next, Allowed, Reaches, Times;
    ReachesStay(u, t, m);
    ReachesStep(u, s2, m, 1, t);
    ReachesStep(u, s1, m, 2, t);
    ReachesStep(u, s, m, 3, t);
  }

  /** A callback that finds no room: its frames count as offered and are lost. */
  lemma CaptureRefuses(u: Setup, s: System, input: seq<byte>)
    requires SetUp(u) && SystemInv(u, s) && s.capture.p.PIdle?
    requires |input| % u.capture.frame == 0 && |input| > Room(u.capture, s.capture)
    ensures Reaches(u, s, Times(CaptureMoves(|input|, input), 3), s.(offered := s.offered + input))
  {
    var m := CaptureMoves(|input|, input);
    var p2 := PPeekValue(|input|, s.capture.head > s.capture.tail);
    GuardStep(u.capture, s.capture, |input|, |input|, input);
    hide SystemInv, ProducerStep, Inv;
    var s2 := s.(capture := s.capture.(p := p2));
    assert Next(u, s2, m) == s.(offered := s.offered + input);
    CaptureGuards(u, s, m, p2, Next(u, s2, m));
  }

  lemma {:induction false} CapturePushes(u: Setup, s: System, m: Move, k: nat, t: State)
    requires SetUp(u) && m.CaptureMoves? && Pushes(u.capture, s.capture, CaptureEvent(u, m), k, t)
    ensures Reaches(u, s, Times(m, k), s.(capture := t))
    decreases k
  {
    hide Reaches, Times;
    if k == 0 {
      ReachesStay(u, s, m);
    } else {
      var s1 := s.(capture := Step(u.capture, s.capture, CaptureEvent(u, m)));
      assert Next(u, s, m) == s1 && Allowed(u, s, m) by {
        hide ProducerStep, ConsumerStep;
      }
      hide Next, Allowed, ProducerStep, ConsumerStep;
      CapturePushes(u, s1, m, k - 1, t);
      ReachesStep(u, s, m, k, s.(capture := t));
    }
  }

  /** The positions of `input` among the bytes offered. */
  function Positions(from: nat, n: nat): seq<nat> {
    seq(n, i requires 0 <= i => from + i)
  }

  /** The guard of a callback that finds room, and the step that takes its frames. */
  lemma CaptureTakes(u: Setup, s: System, input: seq<byte>) returns (t: System)
    requires SetUp(u) && SystemInv(u, s) && s.capture.p.PIdle?
    requires |input| % u.capture.frame == 0 && |input| <= Room(u.capture, s.capture)
    ensures t == s.(capture := s.capture.(p := PPushCompare(input), stream := s.capture.stream + input),
                    offered := s.offered + input, kept := s.kept + Positions(|s.offered|, |input|))
    ensures Reaches(u, s, Times(CaptureMoves(|input|, input), 4), t)
  {
    var m := CaptureMoves(|input|, input);
    var p2 := PPeekValue(|input|, s.capture.head > s.capture.tail);
    GuardStep(u.capture, s.capture, |input|, |input|, input);
    hide SystemInv, Reaches, Times;
    var s2, s3 := s.(capture := s.capture.(p := p2)), s.(capture := s.capture.(p := PReady(|input|)));
    assert Next(u, s2, m) == s3 by {
      hide ProducerStep;
    }
    t := Next(u, s3, m);
    CaptureGuards(u, s, m, p2, s3);
    ReachesStay(u, t, m);
    ReachesStep(u, s3, m, 1, t);
    ReachesOn(u, s, m, 3, s3, 1, t);
  }

  /** A callback that finds room: its frames are offered, kept and published. */
  lemma CaptureDelivers(u: Setup, s: System, input: seq<byte>) returns (t: System, k: nat)
    requires SetUp(u) && SystemInv(u, s) && s.capture.p.PIdle?
    requires |input| % u.capture.frame == 0 && |input| <= Room(u.capture, s.capture)
    ensures Reaches(u, s, Times(CaptureMoves(|input|, input), k), t) && SystemInv(u, t)
    ensures t == s.(capture := t.capture, offered := s.offered + input,
                    kept := s.kept + Positions(|s.offered|, |input|))
    ensures t.capture == s.capture.(data := t.capture.data, tail := t.capture.tail,
                                    stream := s.capture.stream + input, written := |t.capture.stream|)
  {
    var m := CaptureMoves(|input|, input);
    var t1 := CaptureTakes(u, s, input);
    ReachesInv(u, s, Times(m, 4), t1);
    assert Inv(u.capture, t1.capture);
    hide SystemInv, Inv, Reaches, Times, Pushes;
    var r;
    r, k := PushBody(u.capture, t1.capture, CaptureEvent(u, m));
    CapturePushes(u, t1, m, k, r);
    t := t1.(capture := r);
    ReachesOn(u, s, m, 4, t1, k, t);
    k := 4 + k;
    ReachesInv(u, s, Times(m, k), t);
  }

  // ---- the record loop

  lemma {:induction false} RecordFollows(u: Setup, s: System, k: nat, t: State) returns (pipe: seq<byte>)
    requires SetUp(u) && Leads(u.capture, s.capture, Repeat(Consume(u.bufsize), k), t)
    ensures Reaches(u, s, Times(RecordMoves, k), s.(capture := t, pipe := pipe))
    decreases k
  {
    hide Reaches, Times, ProducerStep, ConsumerStep;
    if k == 0 {
      pipe := s.pipe;
      ReachesStay(u, s, RecordMoves);
    } else {
      assert Repeat(Consume(u.bufsize), k)[1..] == Repeat(Consume(u.bufsize), k - 1);
      var s1 := Next(u, s, RecordMoves);
      assert s1 == s.(capture := Step(u.capture, s.capture, Consume(u.bufsize)), pipe := s1.pipe);
      assert Allowed(u, s, RecordMoves);
      hide Next, Allowed;
      pipe := RecordFollows(u, s1, k - 1, t);
      ReachesStep(u, s, RecordMoves, k, s.(capture := t, pipe := pipe));
    }
  }

  lemma DeliveredSnoc(outs: seq<Out>, o: Out)
    ensures Delivered(outs + [o]) == Delivered(outs) + match o case Miss(_) => [] case Block(_, _, bytes) => bytes
  {
    assert (outs + [o])[..|outs|] == outs;
  }

  /** By conservation, what a pop obtained has gone to the pipe. */
  lemma PipeGrows(s: System, t: System, u: Setup, bytes: seq<byte>)
    requires SystemInv(u, s) && SystemInv(u, t) && t.playback == s.playback
    requires Delivered(t.capture.outs) == Delivered(s.capture.outs) + bytes
    ensures t.pipe == s.pipe + bytes
  {
    hide Inv, Delivered, Increasing, Below, PickedAt;
    var x := s.playback.stream;
    assert x + t.pipe == x + (s.pipe + bytes);
    assert (x + t.pipe)[|x|..] == t.pipe && (x + (s.pipe + bytes))[|x|..] == s.pipe + bytes;
  }

  /** A run of the record thread that ends one attempt sends what the attempt obtained. */
  lemma RecordSends(u: Setup, s: System, k: nat, r: State, o: Out) returns (t: System)
    requires SetUp(u) && SystemInv(u, s) && Leads(u.capture, s.capture, Repeat(Consume(u.bufsize), k), r)
    requires r.outs == s.capture.outs + [o]
    ensures t == s.(capture := r, pipe := s.pipe + match o case Miss(_) => [] case Block(_, _, bytes) => bytes)
    ensures Reaches(u, s, Times(RecordMoves, k), t) && SystemInv(u, t)
  {
    hide SystemInv, Leads, Reaches, Times, Repeat;
    var pipe := RecordFollows(u, s, k, r);
    t := s.(capture := r, pipe := pipe);
    ReachesInv(u, s, Times(RecordMoves, k), t);
    DeliveredSnoc(s.capture.outs, o);
    PipeGrows(s, t, u, match o case Miss(_) => [] case Block(_, _, bytes) => bytes);
  }

  lemma RingsInv(u: Setup, s: System)
    requires SetUp(u) && SystemInv(u, s)
    ensures Inv(u.capture, s.capture) && Inv(u.playback, s.playback)
    ensures IndexInv(u.capture, s.capture) && IndexInv(u.playback, s.playback)
    ensures Configured(u.capture) && Configured(u.playback)
    ensures u.capture.frame > 0 && u.bufsize % u.capture.frame == 0 && u.bufsize <= u.capture.window
  {
  }

  /** A pass of the record loop that finds a buffer: the oldest of the newest max_bufsize
      bytes go to the pipe, behind what is there. */
  lemma RecordDelivers(u: Setup, s: System) returns (t: System, k: nat)
    requires SetUp(u) && SystemInv(u, s) && s.capture.k.CIdle? && u.bufsize <= Length(s.capture)
    ensures Reaches(u, s, Times(RecordMoves, k), t) && SystemInv(u, t)
    ensures 0 <= PopStart(u.capture, s.capture) <= PopStart(u.capture, s.capture) + u.bufsize <= |s.capture.stream|
    ensures var start := PopStart(u.capture, s.capture);
            var bytes := s.capture.stream[start..start + u.bufsize];
            && t == s.(capture := t.capture, pipe := s.pipe + bytes)
            && t.capture == s.capture.(head := t.capture.head, read := start + u.bufsize,
                                       outs := s.capture.outs + [Block(u.bufsize, start, bytes)])
  {
    RingsInv(u, s);
    hide *;
    var r;
    r, k := PopRuns(u.capture, s.capture, u.bufsize);
    var o := r.outs[|s.capture.outs|];
    assert r.outs == s.capture.outs + [o];
    t := RecordSends(u, s, k, r, o);
  }

  /** A pass that finds less than a buffer leaves ring and pipe as they are. */
  lemma RecordWaits(u: Setup, s: System)
    requires SetUp(u) && SystemInv(u, s) && s.capture.k.CIdle? && u.bufsize > Length(s.capture)
    ensures Reaches(u, s, Times(RecordMoves, 3),
                    s.(capture := s.capture.(outs := s.capture.outs + [Miss(u.bufsize)])))
  {
    PopMisses(u.capture, s.capture, u.bufsize);
    var r := s.capture.(outs := s.capture.outs + [Miss(u.bufsize)]);
    hide SystemInv, Leads, Reaches, Times, Repeat;
    var t := RecordSends(u, s, 3, r, Miss(u.bufsize));
    assert s.pipe + [] == s.pipe;
  }

  // ---- the playback loop

  /** The three steps of the playback loop's guard. */
  lemma PlaybackGuards(u: Setup, s: System, t: System)
    requires SetUp(u) && s.playback.p.PIdle?
    requires t == Next(u, s.(playback := s.playback.(p := PPeekValue(u.bufsize, s.playback.head > s.playback.tail))),
                       PlaybackMoves)
    ensures Reaches(u, s, Times(PlaybackMoves, 3), t)
  {
    var m := PlaybackMoves;
    var s1 := s.(playback := s.playback.(p := PPeekCompare(u.bufsize)));
    var s2 := s.(playback := s.playback.(p := PPeekValue(u.bufsize, s.playback.head > s.playback.tail)));
    assert Next(u, s, m) == s1 && Next(u, s1, m) == s2;
    assert Allowed(u, s, m) && Allowed(u, s1, m) && Allowed(u, s2, m);
    hide Next, Allowed, Reaches, Times;
    ReachesStay(u, t, m);
    ReachesStep(u, s2, m, 1, t);
    ReachesStep(u, s1, m, 2, t);
    ReachesStep(u, s, m, 3, t);
  }

  lemma PlaybackLooks(u: Setup, s: System)
    requires SetUp(u) && !s.playback.p.PReady?
    ensures Next(u, s, PlaybackMoves) == s.(playback := ProducerStep(u.playback, s.playback, u.bufsize, []))
  {
    hide ProducerStep;
  }

  /** A pass that finds no room leaves ring and pipe as they are. */
  lemma PlaybackWaits(u: Setup, s: System)
    requires SetUp(u) && SystemInv(u, s) && s.playback.p.PIdle? && u.bufsize > Room(u.playback, s.playback)
    ensures Reaches(u, s, Times(PlaybackMoves, 3), s)
  {
    RingsInv(u, s);
    var s2 := s.(playback := s.playback.(p := PPeekValue(u.bufsize, s.playback.head > s.playback.tail)));
    PlaybackLooks(u, s2);
    hide *;
    GuardStep(u.playback, s.playback, u.bufsize, u.bufsize, []);
    PlaybackGuards(u, s, s);
  }

  lemma {:induction false} PlaybackPushes(u: Setup, s: System, k: nat, t: State)
    requires SetUp(u) && Pushes(u.playback, s.playback, Produce(u.bufsize, []), k, t)
    ensures Reaches(u, s, Times(PlaybackMoves, k), s.(playback := t))
    decreases k
  {
    hide Reaches, Times;
    if k == 0 {
      ReachesStay(u, s, PlaybackMoves);
    } else {
      var s1 := s.(playback := Step(u.playback, s.playback, Produce(u.bufsize, [])));
      assert Next(u, s, PlaybackMoves) == s1 && Allowed(u, s, PlaybackMoves) by {
        hide ProducerStep, ConsumerStep;
      }
      hide Next, Allowed, ProducerStep, ConsumerStep;
      PlaybackPushes(u, s1, k - 1, t);
      ReachesStep(u, s, PlaybackMoves, k, s.(playback := t));
    }
  }

  /** The guard of a pass that finds room and a buffer, and the step that takes the buffer. */
  lemma PlaybackTakes(u: Setup, s: System) returns (t: System)
    requires SetUp(u) && SystemInv(u, s) && s.playback.p.PIdle?
    requires u.bufsize <= |s.pipe| && u.bufsize <= Room(u.playback, s.playback)
    ensures t == s.(playback := s.playback.(p := PPushCompare(s.pipe[..u.bufsize]),
                                            stream := s.playback.stream + s.pipe[..u.bufsize]),
                    pipe := s.pipe[u.bufsize..])
    ensures Reaches(u, s, Times(PlaybackMoves, 4), t)
  {
    var m := PlaybackMoves;
    GuardStep(u.playback, s.playback, u.bufsize, u.bufsize, []);
    hide SystemInv, Reaches, Times;
    var s2 := s.(playback := s.playback.(p := PPeekValue(u.bufsize, s.playback.head > s.playback.tail)));
    var s3 := s.(playback := s.playback.(p := PReady(u.bufsize)));
    assert Next(u, s2, m) == s3 by {
      hide ProducerStep;
    }
    t := Next(u, s3, m);
    PlaybackGuards(u, s, s3);
    ReachesStay(u, t, m);
    ReachesStep(u, s3, m, 1, t);
    ReachesOn(u, s, m, 3, s3, 1, t);
  }

  /** A pass of the playback loop that finds room and a buffer in the pipe: the buffer
      leaves the pipe and is published on the ring. */
  lemma PlaybackDelivers(u: Setup, s: System) returns (t: System, k: nat)
    requires SetUp(u) && SystemInv(u, s) && s.playback.p.PIdle?
    requires u.bufsize <= |s.pipe| && u.bufsize <= Room(u.playback, s.playback)
    ensures Reaches(u, s, Times(PlaybackMoves, k), t) && SystemInv(u, t)
    ensures t == s.(playback := t.playback, pipe := s.pipe[u.bufsize..])
    ensures t.playback == s.playback.(data := t.playback.data, tail := t.playback.tail,
                                      stream := s.playback.stream + s.pipe[..u.bufsize],
                                      written := |t.playback.stream|)
  {
    var t1 := PlaybackTakes(u, s);
    ReachesInv(u, s, Times(PlaybackMoves, 4), t1);
    assert Inv(u.playback, t1.playback);
    hide SystemInv, Inv, Reaches, Times, Pushes;
    var r;
    r, k := PushBody(u.playback, t1.playback, Produce(u.bufsize, []));
    PlaybackPushes(u, t1, k, r);
    t := t1.(playback := r);
    ReachesOn(u, s, PlaybackMoves, 4, t1, k, t);
    k := 4 + k;
    ReachesInv(u, s, Times(PlaybackMoves, k), t);
  }

  // ---- the output callback

  lemma {:induction false} OutputFollows(u: Setup, s: System, n: nat, k: nat, t: State)
    requires SetUp(u) && Leads(u.playback, s.playback, Repeat(Consume(n), k), t)
    ensures Reaches(u, s, Times(OutputMoves(n), k), s.(playback := t))
    decreases k
  {
    hide Reaches, Times, ProducerStep, ConsumerStep;
    if k == 0 {
      ReachesStay(u, s, OutputMoves(n));
    } else {
      assert Repeat(Consume(n), k)[1..] == Repeat(Consume(n), k - 1);
      var s1 := Next(u, s, OutputMoves(n));
      assert s1 == s.(playback := Step(u.playback, s.playback, Consume(n)));
      assert Allowed(u, s, OutputMoves(n));
      hide Next, Allowed;
      OutputFollows(u, s1, n, k - 1, t);
      ReachesStep(u, s, OutputMoves(n), k, s.(playback := t));
    }
  }

  /** A callback that finds its bytes is given the oldest of the newest max_bufsize. */
  lemma OutputDelivers(u: Setup, s: System, n: nat) returns (t: System, k: nat)
    requires SetUp(u) && SystemInv(u, s) && s.playback.k.CIdle?
    requires n <= Length(s.playback) && n <= u.playback.window && n % u.playback.frame == 0
    ensures Reaches(u, s, Times(OutputMoves(n), k), t) && SystemInv(u, t)
    ensures 0 <= PopStart(u.playback, s.playback) <= PopStart(u.playback, s.playback) + n <= |s.playback.stream|
    ensures var start := PopStart(u.playback, s.playback);
            t == s.(playback := s.playback.(head := t.playback.head, read := start + n,
                      outs := s.playback.outs + [Block(n, start, s.playback.stream[start..start + n])]))
  {
    RingsInv(u, s);
    hide SystemInv, Inv, Leads, Reaches, Times, Repeat, PopStart;
    var r;
    r, k := PopRuns(u.playback, s.playback, n);
    OutputFollows(u, s, n, k, r);
    t := s.(playback := r);
    ReachesInv(u, s, Times(OutputMoves(n), k), t);
  }

  /** A callback that finds too few is given silence. */
  lemma OutputSilent(u: Setup, s: System, n: nat)
    requires SetUp(u) && SystemInv(u, s) && s.playback.k.CIdle?
    requires n > Length(s.playback) && n <= u.playback.window && n % u.playback.frame == 0
    ensures Reaches(u, s, Times(OutputMoves(n), 3),
                    s.(playback := s.playback.(outs := s.playback.outs + [Miss(n)])))
  {
    PopMisses(u.playback, s.playback, n);
    OutputFollows(u, s, n, 3, s.playback.(outs := s.playback.outs + [Miss(n)]));
  }

  // ---- from capture to output

  /** Nothing is under way, and everything accepted anywhere has been passed on. */
  ghost predicate Quiet(u: Setup, s: System) {
    && SystemInv(u, s) && s.pipe == []
    && s.capture.p.PIdle? && s.capture.k.CIdle? && s.playback.p.PIdle? && s.playback.k.CIdle?
    && s.capture.read == s.capture.written == |s.capture.stream|
    && s.playback.read == s.playback.written == |s.playback.stream|
  }

  /** The buffer fits both rings and what one request may ask for. */
  ghost predicate BufferFits(u: Setup) {
    SetUp(u) && u.bufsize < u.capture.cap && u.bufsize < u.playback.cap && u.bufsize <= u.playback.window
  }

  lemma SliceOfEnd(s: seq<byte>, b: seq<byte>)
    ensures (s + b)[|s|..|s| + |b|] == b
  {
  }

  /** One buffer, from the capture device to the pipe. */
  lemma BufferComesIn(u: Setup, s: System, input: seq<byte>) returns (t: System, ms: seq<Move>)
    requires BufferFits(u) && Quiet(u, s) && |input| == u.bufsize
    ensures Reaches(u, s, ms, t) && SystemInv(u, t)
    ensures t == s.(capture := t.capture, pipe := input, offered := s.offered + input, kept := t.kept)
    ensures t.capture.p.PIdle? && t.capture.k.CIdle?
    ensures t.capture.read == t.capture.written == |t.capture.stream|
  {
    hide SystemInv, Reaches, Times;
    var t1, k1 := CaptureDelivers(u, s, input);
    var k2;
    t, k2 := RecordDelivers(u, t1);
    SliceOfEnd(s.capture.stream, input);
    assert t.pipe == [] + input == input;
    ms := Times(CaptureMoves(|input|, input), k1) + Times(RecordMoves, k2);
    ReachesAppend(u, s, Times(CaptureMoves(|input|, input), k1), t1, Times(RecordMoves, k2), t);
  }

  /** One buffer, from the pipe to the output device. */
  lemma BufferGoesOut(u: Setup, s: System) returns (t: System, ms: seq<Move>)
    requires BufferFits(u) && SystemInv(u, s) && s.playback.p.PIdle? && s.playback.k.CIdle?
    requires s.playback.read == s.playback.written == |s.playback.stream| && |s.pipe| == u.bufsize
    ensures Reaches(u, s, ms, t) && SystemInv(u, t)
    ensures t == s.(playback := t.playback, pipe := []) && t.playback.p.PIdle? && t.playback.k.CIdle?
    ensures t.playback.read == t.playback.written == |t.playback.stream|
    ensures Delivered(t.playback.outs) == Delivered(s.playback.outs) + s.pipe
  {
    hide SystemInv, Reaches, Times, Delivered;
    var t1, k1 := PlaybackDelivers(u, s);
    assert s.pipe[..u.bufsize] == s.pipe && s.pipe[u.bufsize..] == [];
    var k2;
    t, k2 := OutputDelivers(u, t1, u.bufsize);
    SliceOfEnd(s.playback.stream, s.pipe);
    DeliveredSnoc(s.playback.outs, Block(u.bufsize, |s.playback.stream|, s.pipe));
    ms := Times(PlaybackMoves, k1) + Times(OutputMoves(u.bufsize), k2);
    ReachesAppend(u, s, Times(PlaybackMoves, k1), t1, Times(OutputMoves(u.bufsize), k2), t);
  }

  /** One buffer, all the way. */
  lemma BufferArrives(u: Setup, s: System, input: seq<byte>) returns (t: System, ms: seq<Move>)
    requires BufferFits(u) && Quiet(u, s) && |input| == u.bufsize
    ensures Reaches(u, s, ms, t) && Quiet(u, t)
    ensures Delivered(t.playback.outs) == Delivered(s.playback.outs) + input && t.offered == s.offered + input
  {
    hide SystemInv, Reaches, Delivered;
    var t1, ms1 := BufferComesIn(u, s, input);
    var ms2;
    t, ms2 := BufferGoesOut(u, t1);
    ReachesAppend(u, s, ms1, t1, ms2, t);
    ms := ms1 + ms2;
  }

  lemma StartIsQuiet(u: Setup)
    requires SetUp(u)
    ensures Quiet(u, Start(u))
  {
    InitHolds(u.capture);
    InitHolds(u.playback);
  }

  /** Delivery: for any buffers at all there is a run, within all assumptions, in which the
      output device is given exactly what the capture device offered, nothing left behind. */
  lemma {:induction false} AudioArrives(u: Setup, inputs: seq<seq<byte>>) returns (t: System, ms: seq<Move>)
    requires BufferFits(u) && forall i :: 0 <= i < |inputs| ==> |inputs[i]| == u.bufsize
    ensures Reaches(u, Start(u), ms, t) && Quiet(u, t)
    ensures Delivered(t.playback.outs) == t.offered == Join(inputs)
    decreases |inputs|
  {
    if inputs == [] {
      t, ms := Start(u), [];
      StartIsQuiet(u);
    } else {
      var init, last := inputs[..|inputs| - 1], inputs[|inputs| - 1];
      hide Reaches, Quiet, Delivered;
      var t1, ms1 := AudioArrives(u, init);
      var ms2;
      t, ms2 := BufferArrives(u, t1, last);
      ReachesAppend(u, Start(u), ms1, t1, ms2, t);
      ms := ms1 + ms2;
      JoinAppends(init, [last]);
      assert inputs == init + [last] && Join([last]) == last;
    }
  }
}
