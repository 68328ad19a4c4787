/** Frames on the shared ring. A push that goes round the end of the array publishes
    `tail` in the middle, so a concurrent pop that skips old bytes can start inside a
    frame. It cannot when the capacity is a whole number of frames, and it cannot
    when the ring is too small for a pop ever to have to skip. */
module SpscFrames {
  import opened Bits
  import opened Sequences
  import opened Circular
  import opened Spsc
  import opened SpscSafety
  import opened SpscRuns

  /** The condition on the sizes under which frames stay whole. */
  predicate KeepsFrames(c: Config)
    requires c.frame > 0
  {
    c.cap % c.frame == 0 || c.cap < c.window + c.frame
  }

  ghost predicate Framed(c: Config) {
    Configured(c) && c.window % c.frame == 0 && KeepsFrames(c)
  }

  ghost predicate Whole(c: Config, x: int) {
    c.frame > 0 && x % c.frame == 0
  }

  lemma WholeSum(c: Config, a: int, b: int)
    requires Whole(c, a) && Whole(c, b)
    ensures Whole(c, a + b) && Whole(c, a - b)
  {
    SumWhole(a, b, c.frame);
  }

  ghost predicate OutsWhole(c: Config, outs: seq<Out>) {
    forall i :: 0 <= i < |outs| ==> Whole(c, outs[i].n) && (outs[i].Block? ==> Whole(c, outs[i].pos))
  }

  /** What the producer has announced is whole frames. */
  ghost predicate AnnouncesWhole(c: Config, p: Producer) {
    p.PPeekCompare? || p.PPeekValue? || p.PReady? ==> Whole(c, p.n)
  }

  /** With whole frames in the array, the published end lies between frames. */
  ghost predicate TailWhole(c: Config, s: State) {
    Whole(c, s.written) && Whole(c, s.tail) && (s.p.PPublishTail? ==> Whole(c, s.p.len))
  }

  ghost predicate FrameInv(c: Config, s: State) {
    && AnnouncesWhole(c, s.p) && Whole(c, |s.stream|)
    && (s.k.CIdle? || Whole(c, s.k.n)) && Whole(c, ReadStart(s)) && OutsWhole(c, s.outs)
    && (Whole(c, c.cap) ==> TailWhole(c, s))
  }

  // ---- one step of the producer

  lemma AnnouncesStep(c: Config, s: State, n: nat, buf: seq<byte>)
    requires Configured(c) && AnnouncesWhole(c, s.p) && Whole(c, |s.stream|) && Permitted(c, s, Produce(n, buf))
    ensures var t := ProducerStep(c, s, n, buf); AnnouncesWhole(c, t.p) && Whole(c, |t.stream|)
  {
    if s.p.PReady? && |buf| == s.p.n {
      WholeSum(c, |s.stream|, |buf|);
    }
  }

  lemma RestWhole(c: Config, s: State)
    requires Content(s) && Whole(c, |s.stream|) && Whole(c, s.written)
    ensures Whole(c, |Rest(s.p)|)
  {
    assert |s.stream[s.written..]| == |s.stream| - s.written;
    WholeSum(c, |s.stream|, s.written);
  }

  lemma CopiesWhole(c: Config, s: State, n: nat, buf: seq<byte>)
    requires Configured(c) && Whole(c, c.cap) && Inv(c, s) && Whole(c, |s.stream|) && TailWhole(c, s) && s.p.PCopyChunk?
    ensures TailWhole(c, ProducerStep(c, s, n, buf))
  {
    RestWhole(c, s);
    hide Content;
    var chunk := ProducerCopiesCore(c, s, n, buf);
    assert |chunk| == Min(c.cap - s.tail, |Rest(s.p)|);
    hide Core, Whole, ProducerStep;
    WholeSum(c, c.cap, s.tail);
  }

  lemma PublishesWhole(c: Config, s: State, n: nat, buf: seq<byte>)
    requires Configured(c) && Whole(c, c.cap) && Core(c, s) && TailWhole(c, s) && s.p.PPublishTail?
    ensures TailWhole(c, ProducerStep(c, s, n, buf))
  {
    MaskWraps(s.tail + s.p.len, c.cap);
    assert ProducerStep(c, s, n, buf).tail == Wrap(s.tail + s.p.len, c.cap);
    hide Core, Whole, Masked;
    WholeSum(c, s.tail, s.p.len);
    WholeSum(c, s.tail + s.p.len, c.cap);
    WholeSum(c, s.written, s.p.len);
  }

  lemma TailStep(c: Config, s: State, n: nat, buf: seq<byte>)
    requires Configured(c) && Whole(c, c.cap) && Inv(c, s) && Whole(c, |s.stream|) && TailWhole(c, s)
    requires Permitted(c, s, Produce(n, buf)) && !Straddles(s, Produce(n, buf))
    ensures TailWhole(c, ProducerStep(c, s, n, buf))
  {
    if s.p.PCopyChunk? {
      CopiesWhole(c, s, n, buf);
    } else if s.p.PPublishTail? {
      PublishesWhole(c, s, n, buf);
    } else if s.p.PReady? {
      hide Content, Whole;
      ProducerSuppliesCore(c, s, n, buf);
    } else {
      assert Looking(s.p);
      hide Content, Whole, ProducerStep;
      ProducerLooks(c, s, n, buf);
    }
  }

  lemma ProducerStepWhole(c: Config, s: State, n: nat, buf: seq<byte>)
    requires Framed(c) && Inv(c, s) && FrameInv(c, s)
    requires Permitted(c, s, Produce(n, buf)) && !Straddles(s, Produce(n, buf))
    ensures FrameInv(c, ProducerStep(c, s, n, buf))
  {
    hide Content, Core, ProducerStep, Whole, OutsWhole, TailWhole, AnnouncesWhole, Straddles;
    AnnouncesStep(c, s, n, buf);
    ProducerKeepsConsumer(c, s, n, buf);
    if Whole(c, c.cap) {
      TailStep(c, s, n, buf);
    }
  }

  // ---- one step of the consumer

  lemma OutsWholeSnoc(c: Config, outs: seq<Out>, o: Out)
    requires OutsWhole(c, outs) && Whole(c, o.n) && (o.Block? ==> Whole(c, o.pos))
    ensures OutsWhole(c, outs + [o])
  {
  }

  /** The bytes accepted and not yet read, published or not, fit the ring. */
  lemma StreamFits(c: Config, s: State)
    requires Inv(c, s)
    ensures s.written <= |s.stream| && |s.stream| - s.read < c.cap
  {
    assert |s.stream| - s.written == |Rest(s.p)|;
  }

  /** A pop that skips old bytes starts between frames: either all published bytes are
      whole frames, or the ring is too small for there to be anything to skip. */
  lemma SkipsWhole(c: Config, s: State)
    requires Framed(c) && Inv(c, s) && FrameInv(c, s) && s.k.CPopValue? && Length(s) > c.window
    ensures Whole(c, s.written - c.window)
  {
    StreamFits(c, s);
    hide Inv;
    if Whole(c, c.cap) {
      WholeSum(c, s.written, c.window);
    } else {
      WholeSum(c, |s.stream|, s.read);
      MultiplesApart(c.window, |s.stream| - s.read, c.frame);
      assert false;
    }
  }

  lemma DecidesWhole(c: Config, s: State, n: nat)
    requires Framed(c) && Inv(c, s) && FrameInv(c, s) && s.k.CPopValue? && !Straddles(s, Consume(n))
    ensures FrameInv(c, ConsumerStep(c, s, n))
  {
    hide Content, Core, ConsumerStep, Whole, OutsWhole, Straddles, AnnouncesWhole;
    ConsumerDecidesCore(c, s, n);
    if Length(s) > c.window {
      SkipsWhole(c, s);
    } else {
      OutsWholeSnoc(c, s.outs, Block(s.k.n, s.read, []));
    }
  }

  lemma MovesHeadWhole(c: Config, s: State, n: nat)
    requires Framed(c) && Core(c, s) && FrameInv(c, s) && (s.k.CSkip? || s.k.CPublishHead?)
    ensures FrameInv(c, ConsumerStep(c, s, n))
  {
    hide Core, ConsumerStep, Whole, OutsWhole, AnnouncesWhole, Wrap, IsPow2;
    if s.k.CSkip? {
      ConsumerSkipsCore(c, s, n);
      OutsWholeSnoc(c, s.outs, Block(s.k.n, s.read + s.k.diff, []));
    } else {
      ConsumerPublishesCore(c, s, n);
      WholeSum(c, s.k.start, s.k.n);
      OutsWholeSnoc(c, s.outs, Block(s.k.n, s.k.start, s.k.acc));
    }
  }

  lemma ConsumerStepWhole(c: Config, s: State, n: nat)
    requires Framed(c) && Inv(c, s) && FrameInv(c, s)
    requires Permitted(c, s, Consume(n)) && !Straddles(s, Consume(n))
    ensures FrameInv(c, ConsumerStep(c, s, n))
  {
    hide Content;
    if s.k.CPopValue? {
      DecidesWhole(c, s, n);
    } else if s.k.CSkip? || s.k.CPublishHead? {
      MovesHeadWhole(c, s, n);
    } else if s.k.CCopyChunk? {
      hide Core, ConsumerStep, Whole, OutsWhole, AnnouncesWhole;
      var chunk := ConsumerCopiesCore(c, s, n);
    } else {
      LooksWhole(c, s, n);
    }
  }

  lemma LooksWhole(c: Config, s: State, n: nat)
    requires Framed(c) && Core(c, s) && FrameInv(c, s)
    requires s.k.CIdle? || s.k.CPeekCompare? || s.k.CPeekValue? || s.k.CPopCompare?
    requires Permitted(c, s, Consume(n)) && !Straddles(s, Consume(n))
    ensures FrameInv(c, ConsumerStep(c, s, n))
  {
    hide Core, OutsWhole, AnnouncesWhole, IsPow2;
    if s.k.CPeekValue? {
      OutsWholeSnoc(c, s.outs, Miss(s.k.n));
    }
  }

  // ---- every run

  lemma StepWhole(c: Config, s: State, e: Event)
    requires Framed(c) && Inv(c, s) && FrameInv(c, s) && Permitted(c, s, e) && !Straddles(s, e)
    ensures FrameInv(c, Step(c, s, e))
  {
    hide Inv, FrameInv, ProducerStep, ConsumerStep;
    match e
    case Produce(n, buf) => ProducerStepWhole(c, s, n, buf);
    case Consume(n) => ConsumerStepWhole(c, s, n);
  }

  lemma {:induction false} FrameExec(c: Config, s: State, es: seq<Event>)
    requires Framed(c) && Inv(c, s) && FrameInv(c, s) && Clean(c, s, es)
    ensures FrameInv(c, Exec(c, s, es))
    decreases |es|
  {
    hide Inv, FrameInv, ProducerStep, ConsumerStep;
    if es != [] {
      StepPreserves(c, s, es[0]);
      StepWhole(c, s, es[0]);
      FrameExec(c, Step(c, s, es[0]), es[1..]);
    }
  }

  lemma InitWhole(c: Config)
    requires Framed(c)
    ensures FrameInv(c, Init(c))
  {
    assert 0 % c.frame == 0;
  }

  /** Frames are not torn: when the capacity is a whole number of frames, or less than one
      frame above max_bufsize, every block obtained, in any interleaving, starts on a
      frame and holds whole frames. */
  lemma FramesStayWhole(c: Config, es: seq<Event>)
    requires Framed(c) && Clean(c, Init(c), es)
    ensures OutsWhole(c, Exec(c, Init(c), es).outs)
  {
    InitHolds(c);
    InitWhole(c);
    FrameExec(c, Init(c), es);
  }
}
