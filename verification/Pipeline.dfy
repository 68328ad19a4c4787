/** The raw audio path end to end: capture callback, capture ring, record loop, FIFO
    byte pipe, playback loop, playback ring, output callback. Four threads move one
    step at a time in any order; the two rings are the shared rings of module Spsc. */
module Pipeline {
  import opened Bits
  import opened Sequences
  import opened Spsc
  import opened SpscSafety
  import opened SpscRuns
  import opened SpscFrames

  /** Both streams, and the bytes one pass of the record and playback loops moves. */
  datatype Setup = Setup(capture: Config, playback: Config, bufsize: nat)

  /** The rings, the pipe between them, and two histories: every byte the capture device
      offered, and which of them the ring accepted. */
  datatype System = System(capture: State, pipe: seq<byte>, playback: State, offered: seq<byte>, kept: seq<nat>)

  datatype Move =
    | CaptureMoves(n: nat, input: seq<byte>)
    | RecordMoves
    | PlaybackMoves
    | OutputMoves(n: nat)

  ghost predicate SetUp(u: Setup) {
    && Configured(u.capture) && Configured(u.playback)
    && u.capture.frame == u.playback.frame
    && u.bufsize % u.capture.frame == 0 && u.bufsize <= u.capture.window
  }

  function Start(u: Setup): System {
    System(Init(u.capture), [], Init(u.playback), [], [])
  }

  /** The capture callback's guard has passed and its frames go to the ring. */
  predicate Accepts(s: State, input: seq<byte>) {
    s.p.PReady? && |input| == s.p.n
  }

  /** The capture callback's guard fails and its frames are lost. */
  predicate Refuses(s: State, t: State) {
    s.p.PPeekValue? && t.p.PIdle?
  }

  /** The record loop writes what a pop obtained to the pipe. The playback loop, once it
      has seen room, waits until the pipe holds a buffer, takes it and pushes it. */
  function Next(u: Setup, s: System, m: Move): System
    requires u.capture.cap > 0 && u.playback.cap > 0
  {
    match m
    case CaptureMoves(n, input) =>
      var t := s.(capture := ProducerStep(u.capture, s.capture, n, input));
      if Accepts(s.capture, input) then
        t.(offered := s.offered + input, kept := s.kept + seq(|input|, i requires 0 <= i => |s.offered| + i))
      else if Refuses(s.capture, t.capture) then t.(offered := s.offered + input)
      else t
    case RecordMoves =>
      var t := ConsumerStep(u.capture, s.capture, u.bufsize);
      var sent := if |t.outs| > |s.capture.outs| && t.outs[|t.outs| - 1].Block? then t.outs[|t.outs| - 1].bytes else [];
      s.(capture := t, pipe := s.pipe + sent)
    case PlaybackMoves =>
      if !s.playback.p.PReady? then s.(playback := ProducerStep(u.playback, s.playback, u.bufsize, []))
      else if |s.pipe| < s.playback.p.n then s
      else
        var n := s.playback.p.n;
        s.(playback := ProducerStep(u.playback, s.playback, n, s.pipe[..n]), pipe := s.pipe[n..])
    case OutputMoves(n) => s.(playback := ConsumerStep(u.playback, s.playback, n))
  }

  function CaptureEvent(u: Setup, m: Move): Event
    requires m.CaptureMoves? || m.RecordMoves?
  {
    if m.CaptureMoves? then Produce(m.n, m.input) else Consume(u.bufsize)
  }

  /** The event a move is for the playback ring. */
  function PlaybackEvent(u: Setup, s: System, m: Move): Event
    requires m.PlaybackMoves? || m.OutputMoves?
  {
    if m.OutputMoves? then Consume(m.n)
    else if s.playback.p.PReady? && s.playback.p.n <= |s.pipe| then Produce(s.playback.p.n, s.pipe[..s.playback.p.n])
    else Produce(u.bufsize, [])
  }

  /** The devices offer and ask for whole frames, as many as announced, the output at most max_bufsize bytes at
      a time, and no paired loads straddle a wrap. */
  predicate Allowed(u: Setup, s: System, m: Move)
    requires u.capture.frame > 0 && u.playback.frame > 0
  {
    match m
    case CaptureMoves(_, _) =>
      && Permitted(u.capture, s.capture, CaptureEvent(u, m)) && !Straddles(s.capture, CaptureEvent(u, m))
      && (s.capture.p.PPeekValue? ==> |m.input| == s.capture.p.n)
    case RecordMoves => !Straddles(s.capture, CaptureEvent(u, m))
    case PlaybackMoves => !Straddles(s.playback, PlaybackEvent(u, s, m))
    case OutputMoves(_) =>
      Permitted(u.playback, s.playback, PlaybackEvent(u, s, m)) && !Straddles(s.playback, PlaybackEvent(u, s, m))
  }

  function After(u: Setup, s: System, ms: seq<Move>): System
    requires u.capture.cap > 0 && u.playback.cap > 0
    decreases |ms|
  {
    if ms == [] then s else After(u, Next(u, s, ms[0]), ms[1..])
  }

  predicate AllAllowed(u: Setup, s: System, ms: seq<Move>)
    requires u.capture.cap > 0 && u.playback.cap > 0 && u.capture.frame > 0 && u.playback.frame > 0
    decreases |ms|
  {
    ms == [] || (Allowed(u, s, ms[0]) && AllAllowed(u, Next(u, s, ms[0]), ms[1..]))
  }

  // ---- the invariant

  /** The pipe conserves bytes: what the record loop obtained is what the playback loop
      has pushed followed by what is still in the pipe. */
  ghost predicate SystemInv(u: Setup, s: System) {
    && Inv(u.capture, s.capture) && Inv(u.playback, s.playback)
    && Delivered(s.capture.outs) == s.playback.stream + s.pipe
    && Increasing(s.kept) && Below(s.kept, |s.offered|) && PickedAt(s.capture.stream, s.offered, s.kept)
  }

  lemma PicksSurvive(stream: seq<byte>, offered: seq<byte>, kept: seq<nat>, lost: seq<byte>)
    requires Below(kept, |offered|) && PickedAt(stream, offered, kept)
    ensures Below(kept, |offered + lost|) && PickedAt(stream, offered + lost, kept)
  {
  }

  lemma PicksGrow(stream: seq<byte>, offered: seq<byte>, kept: seq<nat>, input: seq<byte>)
    requires Increasing(kept) && Below(kept, |offered|) && PickedAt(stream, offered, kept)
    ensures var kept' := kept + seq(|input|, i requires 0 <= i => |offered| + i);
            Increasing(kept') && Below(kept', |offered + input|) && PickedAt(stream + input, offered + input, kept')
  {
    PicksSurvive(stream, offered, kept, input);
    assert (offered + input)[|offered|..|offered| + |input|] == input;
    PickBlock(stream, offered + input, kept, |offered|, input);
  }

  lemma PipeTakes(stream: seq<byte>, pipe: seq<byte>, sent: seq<byte>)
    ensures (stream + pipe) + sent == stream + (pipe + sent)
  {
  }

  lemma PipeGives(stream: seq<byte>, pipe: seq<byte>, n: nat)
    requires n <= |pipe|
    ensures (stream + pipe[..n]) + pipe[n..] == stream + pipe
  {
  }

  lemma CaptureSide(u: Setup, s: System, m: Move)
    requires SetUp(u) && SystemInv(u, s) && Allowed(u, s, m) && (m.CaptureMoves? || m.RecordMoves?)
    ensures SystemInv(u, Next(u, s, m))
  {
    hide Inv, IsPow2, Straddles;
    var e := CaptureEvent(u, m);
    StepPreserves(u.capture, s.capture, e);
    hide ProducerStep, ConsumerStep;
    if m.CaptureMoves? {
      ProducerKeepsOuts(u.capture, s.capture, m.n, m.input);
      hide Increasing, Below, PickedAt;
      PicksGrow(s.capture.stream, s.offered, s.kept, m.input);
      PicksSurvive(s.capture.stream, s.offered, s.kept, m.input);
      assert s.capture.stream + [] == s.capture.stream;
    } else {
      ConsumerAddsOut(u.capture, s.capture, u.bufsize);
      var t := ConsumerStep(u.capture, s.capture, u.bufsize);
      if t.outs != s.capture.outs && t.outs[|t.outs| - 1].Block? {
        var sent := t.outs[|t.outs| - 1].bytes;
        PipeTakes(s.playback.stream, s.pipe, sent);
      }
    }
  }

  lemma PlaybackSide(u: Setup, s: System, m: Move)
    requires SetUp(u) && SystemInv(u, s) && Allowed(u, s, m) && (m.PlaybackMoves? || m.OutputMoves?)
    ensures SystemInv(u, Next(u, s, m))
  {
    hide Inv, IsPow2, Straddles;
    var e := PlaybackEvent(u, s, m);
    StepPreserves(u.playback, s.playback, e);
    hide ProducerStep, ConsumerStep;
    if m.PlaybackMoves? {
      ProducerKeepsOuts(u.playback, s.playback, e.n, e.buf);
      if s.playback.p.PReady? && s.playback.p.n <= |s.pipe| {
        PipeGives(s.playback.stream, s.pipe, e.n);
      }
    } else {
      ConsumerAddsOut(u.playback, s.playback, m.n);
    }
  }

  lemma {:induction false} SystemRuns(u: Setup, s: System, ms: seq<Move>)
    requires SetUp(u) && SystemInv(u, s) && AllAllowed(u, s, ms)
    ensures SystemInv(u, After(u, s, ms))
    decreases |ms|
  {
    hide SystemInv, Allowed, Next;
    if ms != [] {
      if ms[0].CaptureMoves? || ms[0].RecordMoves? {
        CaptureSide(u, s, ms[0]);
      } else {
        PlaybackSide(u, s, ms[0]);
      }
      SystemRuns(u, Next(u, s, ms[0]), ms[1..]);
    }
  }

  // ---- end to end, bytes

  function Through(ps: seq<nat>, qs: seq<nat>): seq<nat>
    requires Below(qs, |ps|)
  {
    seq(|qs|, i requires 0 <= i < |qs| => ps[qs[i]])
  }

  lemma ThroughBelow(ps: seq<nat>, qs: seq<nat>, limit: nat)
    requires Below(ps, limit) && Below(qs, |ps|)
    ensures Below(Through(ps, qs), limit)
  {
  }

  /** Played bytes are relayed bytes are kept bytes. */
  ghost predicate Linked(s: System) {
    Below(Source(s.playback.outs), |Source(s.capture.outs)|) && Below(Source(s.capture.outs), |s.kept|)
  }

  /** The position, among the bytes the capture device offered, of every byte the output
      device was given. */
  function Origin(s: System): (ps: seq<nat>)
    requires Linked(s)
    ensures |ps| == |Source(s.playback.outs)|
  {
    ThroughBelow(Source(s.capture.outs), Source(s.playback.outs), |s.kept|);
    Through(s.kept, Through(Source(s.capture.outs), Source(s.playback.outs)))
  }

  lemma SourcesCompose(u: Setup, s: System)
    requires SystemInv(u, s)
    ensures var relayed, played := Source(s.capture.outs), Source(s.playback.outs);
            && Increasing(relayed) && PickedAt(s.playback.stream + s.pipe, s.capture.stream, relayed)
            && Increasing(played) && PickedAt(Delivered(s.playback.outs), s.playback.stream, played)
            && Linked(s)
  {
    hide OutsInv, Core;
    DeliveredInOrder(s.capture.outs, s.capture.stream, Mark(s.capture.k, s.capture.read));
    DeliveredInOrder(s.playback.outs, s.playback.stream, Mark(s.playback.k, s.playback.read));
  }

  /** In order, at most once, nothing invented. */
  ghost predicate EndToEnd(s: System) {
    Linked(s) && Increasing(Origin(s)) && PickedAt(Delivered(s.playback.outs), s.offered, Origin(s))
  }

  /** Picking from what was picked is picking from the first stream. */
  lemma PicksCompose(stream: seq<byte>, relayed: seq<byte>, rest: seq<byte>, ps: seq<nat>, played: seq<byte>, qs: seq<nat>)
    requires Increasing(ps) && PickedAt(relayed + rest, stream, ps)
    requires Increasing(qs) && PickedAt(played, relayed, qs)
    ensures Below(qs, |ps|) && Increasing(Through(ps, qs)) && PickedAt(played, stream, Through(ps, qs))
  {
    forall i | 0 <= i < |qs|
      ensures qs[i] < |ps| && ps[qs[i]] < |stream| && played[i] == stream[ps[qs[i]]]
    {
      assert relayed[qs[i]] == (relayed + rest)[qs[i]];
    }
  }

  lemma InvMeansEndToEnd(u: Setup, s: System)
    requires SystemInv(u, s)
    ensures EndToEnd(s)
  {
    SourcesCompose(u, s);
    hide Inv, Source, Delivered, PickedAt, Increasing, Below, Through;
    var relayed, played := Source(s.capture.outs), Source(s.playback.outs);
    PicksCompose(s.capture.stream, s.playback.stream, s.pipe, relayed, Delivered(s.playback.outs), played);
    assert s.capture.stream + [] == s.capture.stream;
    PicksCompose(s.offered, s.capture.stream, [], s.kept, Delivered(s.playback.outs), Through(relayed, played));
  }

  /** Over every run, every byte the output device is given is a byte the capture device
      offered, the positions strictly increasing in the order offered. */
  lemma AudioInOrder(u: Setup, ms: seq<Move>)
    requires SetUp(u) && AllAllowed(u, Start(u), ms)
    ensures EndToEnd(After(u, Start(u), ms))
  {
    InitHolds(u.capture);
    InitHolds(u.playback);
    SystemRuns(u, Start(u), ms);
    InvMeansEndToEnd(u, After(u, Start(u), ms));
  }

  // ---- end to end, frames

  /** The positions come in runs of `f` consecutive ones, each starting at a multiple of `f`. */
  ghost predicate FrameRuns(ps: seq<nat>, f: nat) {
    && f > 0 && |ps| % f == 0
    && forall i :: 0 <= i < |ps| && i % f == 0 ==>
         i + f <= |ps| && ps[i] % f == 0 && forall j :: i <= j < i + f ==> ps[j] == ps[i] + (j - i)
  }

  lemma RunsAppend(ps: seq<nat>, f: nat, pos: nat, n: nat)
    requires FrameRuns(ps, f) && pos % f == 0 && n % f == 0
    ensures FrameRuns(ps + seq(n, i requires 0 <= i => pos + i), f)
  {
    var qs := ps + seq(n, i requires 0 <= i => pos + i);
    SumWhole(|ps|, n, f);
    forall i | 0 <= i < |qs| && i % f == 0
      ensures i + f <= |qs| && qs[i] % f == 0 && forall j :: i <= j < i + f ==> qs[j] == qs[i] + (j - i)
    {
      MultiplesApart(i, |qs|, f);
      if i >= |ps| {
        SumWhole(i, |ps|, f);
        SumWhole(pos, i - |ps|, f);
      }
    }
  }

  ghost predicate SystemFrames(u: Setup, s: System) {
    && FrameInv(u.capture, s.capture) && FrameInv(u.playback, s.playback)
    && FrameRuns(s.kept, u.capture.frame) && Whole(u.capture, |s.offered|)
  }

  ghost predicate FramedSetUp(u: Setup) {
    SetUp(u) && Framed(u.capture) && Framed(u.playback)
  }

  lemma OfferedWhole(u: Setup, s: System, m: Move)
    requires FramedSetUp(u) && SystemFrames(u, s) && Allowed(u, s, m) && m.CaptureMoves?
    ensures var t := Next(u, s, m);
            FrameRuns(t.kept, u.capture.frame) && Whole(u.capture, |t.offered|)
  {
    var c := u.capture;
    assert Accepts(s.capture, m.input) || Refuses(s.capture, ProducerStep(c, s.capture, m.n, m.input)) ==> Whole(c, |m.input|);
    hide FrameRuns, OutsWhole, TailWhole, AnnouncesWhole, ProducerStep, Straddles, IsPow2;
    if Whole(c, |m.input|) {
      WholeSum(c, |s.offered|, |m.input|);
      RunsAppend(s.kept, c.frame, |s.offered|, |m.input|);
    }
  }

  lemma MoveWhole(u: Setup, s: System, m: Move)
    requires FramedSetUp(u) && SystemInv(u, s) && SystemFrames(u, s) && Allowed(u, s, m)
    ensures SystemFrames(u, Next(u, s, m))
  {
    hide Inv, IsPow2, Straddles, FrameInv, FrameRuns;
    if m.CaptureMoves? {
      OfferedWhole(u, s, m);
      StepWhole(u.capture, s.capture, CaptureEvent(u, m));
    } else if m.RecordMoves? {
      StepWhole(u.capture, s.capture, CaptureEvent(u, m));
    } else {
      StepWhole(u.playback, s.playback, PlaybackEvent(u, s, m));
    }
    hide ProducerStep, ConsumerStep;
  }

  lemma {:induction false} FramesRun(u: Setup, s: System, ms: seq<Move>)
    requires FramedSetUp(u) && SystemInv(u, s) && SystemFrames(u, s) && AllAllowed(u, s, ms)
    ensures SystemInv(u, After(u, s, ms)) && SystemFrames(u, After(u, s, ms))
    decreases |ms|
  {
    hide SystemInv, SystemFrames, Allowed, Next;
    if ms != [] {
      if ms[0].CaptureMoves? || ms[0].RecordMoves? {
        CaptureSide(u, s, ms[0]);
      } else {
        PlaybackSide(u, s, ms[0]);
      }
      MoveWhole(u, s, ms[0]);
      FramesRun(u, Next(u, s, ms[0]), ms[1..]);
    }
  }

  lemma {:induction false} SourceInFrames(c: Config, outs: seq<Out>, stream: seq<byte>, limit: nat)
    requires c.frame > 0 && OutsInv(outs, stream, limit) && OutsWhole(c, outs)
    ensures FrameRuns(Source(outs), c.frame)
    decreases |outs|
  {
    if outs == [] {
      assert Whole(c, 0);
    } else {
      var init, last := outs[..|outs| - 1], outs[|outs| - 1];
      match last
      case Miss(_) =>
        SourceInFrames(c, init, stream, limit);
        assert Source(outs) == Source(init);
      case Block(n, pos, bytes) =>
        SourceInFrames(c, init, stream, pos);
        RunsAppend(Source(init), c.frame, pos, n);
    }
  }

  /** Frame by frame, `bytes` is a frame of `stream`, the one at the position in `ps`. */
  ghost predicate FramesAt(bytes: seq<byte>, stream: seq<byte>, ps: seq<nat>, f: nat) {
    && f > 0 && |bytes| % f == 0
    && forall i :: 0 <= i < |ps| && i % f == 0 ==>
         && i + f <= |bytes| && ps[i] % f == 0 && ps[i] + f <= |stream|
         && bytes[i..i + f] == stream[ps[i]..ps[i] + f]
  }

  /** What the output device is given is frames the capture device offered. */
  ghost predicate WholeFrames(s: System, f: nat)
    requires EndToEnd(s)
  {
    FramesAt(Delivered(s.playback.outs), s.offered, Origin(s), f)
  }

  lemma RunsCompose(ps: seq<nat>, qs: seq<nat>, f: nat)
    requires FrameRuns(ps, f) && FrameRuns(qs, f) && Below(qs, |ps|)
    ensures FrameRuns(Through(ps, qs), f)
  {
    var rs := Through(ps, qs);
    forall i | 0 <= i < |rs| && i % f == 0
      ensures i + f <= |rs| && rs[i] % f == 0 && forall j :: i <= j < i + f ==> rs[j] == rs[i] + (j - i)
    {
      assert qs[i] % f == 0;
      assert ps[qs[i]] % f == 0;
      forall j | i <= j < i + f
        ensures rs[j] == rs[i] + (j - i)
      {
        assert qs[j] == qs[i] + (j - i);
        assert ps[qs[i] + (j - i)] == ps[qs[i]] + (j - i);
      }
    }
  }

  lemma PickedFrame(bytes: seq<byte>, stream: seq<byte>, ps: seq<nat>, f: nat, i: nat)
    requires PickedAt(bytes, stream, ps) && FrameRuns(ps, f) && i < |ps| && i % f == 0
    ensures i + f <= |ps| == |bytes| && ps[i] % f == 0 && ps[i] + f <= |stream|
    ensures bytes[i..i + f] == stream[ps[i]..ps[i] + f]
  {
    assert ps[i + f - 1] == ps[i] + (f - 1);
    forall j | i <= j < i + f
      ensures bytes[j] == stream[ps[i] + (j - i)]
    {
      assert ps[j] == ps[i] + (j - i);
    }
  }

  lemma RingInFrames(c: Config, s: State)
    requires Framed(c) && Inv(c, s) && FrameInv(c, s)
    ensures FrameRuns(Source(s.outs), c.frame)
  {
    SourceInFrames(c, s.outs, s.stream, Mark(s.k, s.read));
  }

  lemma FramesFromRuns(s: System, f: nat)
    requires EndToEnd(s) && FrameRuns(s.kept, f)
    requires FrameRuns(Source(s.capture.outs), f) && FrameRuns(Source(s.playback.outs), f)
    ensures WholeFrames(s, f)
  {
    var relayed, played := Source(s.capture.outs), Source(s.playback.outs);
    hide Source, Delivered, FrameRuns, FramesAt, PickedAt, Increasing, Through, Below;
    RunsCompose(relayed, played, f);
    ThroughBelow(relayed, played, |s.kept|);
    RunsCompose(s.kept, Through(relayed, played), f);
    PickedFrames(Delivered(s.playback.outs), s.offered, Origin(s), f);
  }

  lemma InvMeansWholeFrames(u: Setup, s: System)
    requires FramedSetUp(u) && SystemInv(u, s) && SystemFrames(u, s) && EndToEnd(s)
    ensures WholeFrames(s, u.capture.frame)
  {
    hide Source, Inv, FrameInv, FrameRuns, EndToEnd, WholeFrames;
    RingInFrames(u.capture, s.capture);
    RingInFrames(u.playback, s.playback);
    FramesFromRuns(s, u.capture.frame);
  }

  lemma PickedFrames(bytes: seq<byte>, stream: seq<byte>, ps: seq<nat>, f: nat)
    requires PickedAt(bytes, stream, ps) && FrameRuns(ps, f)
    ensures FramesAt(bytes, stream, ps, f)
  {
    forall i | 0 <= i < |ps| && i % f == 0
      ensures i + f <= |bytes| && ps[i] % f == 0 && ps[i] + f <= |stream|
      ensures bytes[i..i + f] == stream[ps[i]..ps[i] + f]
    {
      PickedFrame(bytes, stream, ps, f, i);
    }
  }

  /** Over every run, when each ring is a whole number of frames or too small for a pop ever
      to skip, the output is whole frames: every attempt, silent or not, asks for whole frames, and each frame given is
      one frame the capture device offered, in increasing order, none twice, none torn. */
  lemma FramesInOrder(u: Setup, ms: seq<Move>)
    requires FramedSetUp(u) && AllAllowed(u, Start(u), ms)
    ensures var s := After(u, Start(u), ms);
            && EndToEnd(s) && WholeFrames(s, u.capture.frame)
            && OutsWhole(u.playback, s.playback.outs)
  {
    InitHolds(u.capture);
    InitHolds(u.playback);
    InitWhole(u.capture);
    InitWhole(u.playback);
    assert Whole(u.capture, 0);
    FramesRun(u, Start(u), ms);
    var s := After(u, Start(u), ms);
    InvMeansEndToEnd(u, s);
    InvMeansWholeFrames(u, s);
  }
}
