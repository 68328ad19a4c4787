/** Runs of operations on the ring. */
module RingRuns {
  import opened Bits
  import opened RingBuffers
  import opened DropQueue

  /** The sizes of the call fit their C type. */
  predicate Callable(op: Op) {
    match op
    case OpPush(b) => |b| < 0x1_0000_0000_0000_0000
    case OpPopFront(n) => n < 0x1_0000_0000_0000_0000
    case OpPopBack(n) => n < 0x1_0000_0000_0000_0000
    case OpPopBackFrom(n, window) => n < 0x1_0000_0000_0000_0000 && window < 0x1_0000_0000_0000_0000
    case OpFlush => true
  }

  /** Every pop_back_from of the run is made within its contract. */
  predicate KeepsContract(limit: nat, ops: seq<Op>) {
    forall i :: 0 <= i < |ops| && ops[i].OpPopBackFrom? ==>
                  InContract(|Run(limit, ops[..i]).queue|, ops[i].n, ops[i].window)
  }

  /** One call on the ring, `h` being what has happened so far. */
  method Perform(ring: RingBuffer, op: Op, ghost h: History) returns (taken: seq<seq<byte>>)
    requires ring.Valid() && ring.Contents() == h.queue && Callable(op)
    requires op.OpPopBackFrom? ==> InContract(|h.queue|, op.n, op.window)
    modifies ring, ring.data
    ensures ring.Valid()
    ensures ring.Contents() == Apply(h, ring.mask as nat, op).queue && taken == Takes(h.queue, op)
  {
    hide RingBuffer.Contents, RingBuffer.Valid;
    hide DropQueue.Push, DropQueue.PopFront, DropQueue.PopBack, DropQueue.PopBackFrom;
    taken := [];
    match op {
      case OpPush(b) =>
        var pushed := ring.Push(b, |b| as size_t);
      case OpPopFront(n) =>
        DropQueue.RemovalsSplit(h.queue, n, 0);
        var buf := new byte[n](_ => 0);
        var read := ring.PopFront(buf, n as size_t);
        taken := [buf[..read]];
      case OpPopBack(n) =>
        DropQueue.RemovalsSplit(h.queue, n, 0);
        var buf := new byte[n](_ => 0);
        var read := ring.PopBack(buf, n as size_t);
        taken := [buf[..read]];
      case OpPopBackFrom(n, window) =>
        var buf := new byte[n](_ => 0);
        var read := ring.PopBackFrom(buf, n as size_t, window as size_t);
        taken := [buf[..read]];
      case OpFlush =>
        ring.Flush();
    }
  }

  /** A whole run on a new ring. What the buffers receive and what the ring holds is what
      the run of the queue says, so the ring conserves: the bytes pushed are the bytes
      dropped and handed out, in that order, and then the bytes it holds. */
  method PerformAll(ring: RingBuffer, ops: seq<Op>) returns (taken: seq<seq<byte>>)
    requires ring.Valid() && ring.Contents() == []
    requires (forall i :: 0 <= i < |ops| ==> Callable(ops[i])) && KeepsContract(ring.mask as nat, ops)
    modifies ring, ring.data
    ensures ring.Valid()
    ensures var h := Run(ring.mask as nat, ops);
            && ring.Contents() == h.queue && taken == HandedOut(h.log)
            && Pushed(ops) == Flatten(h.log) + ring.Contents()
    ensures (forall i :: 0 <= i < |ops| ==> ops[i].OpPush?) ==>
              ring.Contents() == Newest(Pushed(ops), ring.mask as nat)
  {
    hide RingBuffer.Contents, RingBuffer.Valid, Apply;
    ghost var limit := ring.mask as nat;
    taken := [];
    for i := 0 to |ops|
      invariant ring.Valid()
      invariant ring.Contents() == Run(limit, ops[..i]).queue && taken == HandedOut(Run(limit, ops[..i]).log)
    {
      assert ops[..i + 1][..i] == ops[..i] && ops[..i + 1] == ops[..i] + [ops[i]];
      RunHandsOut(limit, ops[..i], ops[i]);
      var got := Perform(ring, ops[i], Run(limit, ops[..i]));
      taken := taken + got;
    }
    assert ops[..|ops|] == ops;
    Conservation(limit, ops);
    if forall i :: 0 <= i < |ops| ==> ops[i].OpPush? {
      PushesKeepNewest(limit, ops);
    }
  }
}
