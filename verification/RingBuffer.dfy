/** The circular byte buffer of libaudiowire/src/ringbuf.c. */
module RingBuffers {
  import opened Bits
  import opened Sequences
  import opened Circular
  import opened Memory
  import DropQueue

  function Least(a: size_t, b: size_t): size_t {
    if a < b then a else b
  }

  /** `x & mask` on `size_t`. */
  function Masked(x: size_t, mask: size_t): (r: size_t)
    requires IsPow2(mask as nat + 1)
    ensures r as nat == BitAnd(x as nat, mask as nat) && r <= mask
  {
    BitAndMask(x as nat, mask as nat + 1);
    BitAnd(x as nat, mask as nat) as size_t
  }

  class RingBuffer {
    const data: array<byte>
    const capacity: size_t
    const mask: size_t
    var head: size_t
    var tail: size_t

    /** The representation invariant. With a one-byte array the reset branch of
        Push leaves `head` one past the array, which is harmless: no byte is ever stored. */
    ghost predicate Valid()
      reads this
    {
      && data.Length == capacity as int
      && IsPow2(capacity as nat) && capacity as nat <= MAX_CAPACITY
      && mask as int == capacity as int - 1
      && Indices(head as nat, tail as nat, capacity as nat)
    }

    /** How many bytes lie between `head` and `tail`. */
    ghost function Length(): (n: nat)
      requires Valid()
      reads this
      ensures n <= mask as nat
    {
      Span(head as nat, tail as nat, capacity as nat)
    }

    /** The queued bytes, oldest first. */
    ghost function Contents(): (q: seq<byte>)
      requires Valid()
      reads this, data
      ensures |q| == Length()
    {
      Queued(data[..], head as nat, tail as nat)
    }

    constructor (cap: size_t)
      requires cap as nat <= MAX_CAPACITY
      ensures Valid() && fresh(data) && Contents() == []
      ensures cap <= capacity
      ensures forall c: nat :: IsPow2(c) && cap as nat <= c ==> capacity as nat <= c
      ensures if IsPow2(cap as nat) then mask as int == cap as int - 1 else cap <= mask
    {
      var c: size_t := 1;
      while c < cap
        invariant IsPow2(c as nat) && c as nat <= MAX_CAPACITY
        invariant forall d: nat :: IsPow2(d) && cap as nat <= d ==> c as nat <= d
        decreases MAX_CAPACITY - c as nat
      {
        DoublingFits(c as nat, cap as nat);
        forall d: nat | IsPow2(d) && cap as nat <= d
          ensures 2 * c as nat <= d
        {
          Pow2Gap(c as nat, d);
        }
        c := c * 2;
      }
      data := new byte[c as nat](_ => 0);
      capacity := c;
      mask := c - 1;
      head, tail := 0, 0;
    }

    function Capacity(): size_t {
      mask
    }

    method Available() returns (n: size_t)
      requires Valid()
      ensures n as nat + Length() == mask as nat
    {
      if head > tail {
        return head - tail - 1;
      }
      return capacity - tail + head - 1;
    }

    method Remaining() returns (n: size_t)
      requires Valid()
      ensures n as nat == Length()
    {
      if head <= tail {
        return tail - head;
      }
      return capacity - head + tail;
    }

    /** One pass of the copy into the ring: up to the end of the array at most. */
    method WriteChunk(chunk: seq<byte>) returns (tail': size_t)
      requires Valid() && chunk != []
      requires tail as int + |chunk| <= capacity as int && |chunk| <= mask as int - Length()
      modifies this`tail, data
      ensures Valid() && tail' == tail
      ensures tail as nat == Wrap(old(tail) as nat + |chunk|, capacity as nat)
      ensures Contents() == old(Contents()) + chunk
    {
      QueuedGrows(data[..], head as nat, tail as nat, chunk);
      MaskWraps(tail as nat + |chunk|, capacity as nat);
      CopyInto(data, tail as nat, chunk);
      tail := Masked(tail + |chunk| as size_t, mask);
      tail' := tail;
    }

    /** The chunked copy into the ring. The caller has made room. */
    method Write(buf: seq<byte>, bufsize: size_t) returns (written: size_t, ghost passes: nat)
      requires Valid() && bufsize as int == |buf|
      requires |buf| <= mask as int - Length()
      modifies this`tail, data
      ensures Valid() && written == bufsize && passes <= 2
      ensures Contents() == old(Contents()) + buf
    {
      var tail' := tail;
      var offset: size_t := 0;
      ghost var q := Contents();
      passes := 0;
      while offset < bufsize
        invariant offset <= bufsize && Valid() && tail' == tail
        invariant Contents() == q + buf[..offset]
        invariant passes == 0 ==> offset == 0
        invariant passes == 1 ==> offset == bufsize || tail' == 0
        invariant passes >= 2 ==> passes == 2 && offset == bufsize
      {
        var available := capacity - tail';
        var remaining := bufsize - offset;
        var length := Least(available, remaining);
        tail' := WriteChunk(buf[offset..offset + length]);
        assert q + buf[..offset] + buf[offset..offset + length] == q + buf[..offset + length];
        offset := offset + length;
        passes := passes + 1;
      }
      written := bufsize;
    }

    /** One pass of the copy out of the ring: up to the end of the array at most. */
    method ReadChunk(buf: array<byte>, offset: nat, length: size_t) returns (head': size_t)
      requires Valid() && buf != data && 0 < length
      requires head as int + length as int <= capacity as int && offset + length as int <= buf.Length
      modifies this`head, buf
      ensures Valid() && head' == head
      ensures head as nat == Wrap(old(head) as nat + length as nat, capacity as nat)
      ensures buf[..offset + length as int] == old(buf[..offset]) + data[old(head)..old(head) + length]
      ensures buf[offset + length as int..] == old(buf[offset + length as int..])
    {
      MaskWraps(head as nat + length as nat, capacity as nat);
      CopyInto(buf, offset, data[head..head + length]);
      head := Masked(head + length, mask);
      head' := head;
    }

    /** The chunked copy out of the ring. It does not look at `tail`: it hands out
        the `bufsize` array elements that follow `head`, queued or not. */
    method Read(buf: array<byte>, bufsize: size_t) returns (read: size_t, ghost passes: nat)
      requires Valid() && buf != data
      requires bufsize as int <= buf.Length && bufsize <= mask
      modifies this`head, buf
      ensures Valid() && read == bufsize && passes <= 2
      ensures buf[..bufsize] == Window(data[..], old(head) as nat, bufsize as nat)
      ensures buf[bufsize..] == old(buf[bufsize..])
      ensures if bufsize == 0 then head == old(head)
              else head as nat == Wrap(old(head) as nat + bufsize as nat, capacity as nat)
    {
      hide Window, Span, IsPow2;
      var head' := head;
      var offset: size_t := 0;
      passes := 0;
      ghost var s, start := data[..], head as nat;
      while offset < bufsize
        invariant offset <= bufsize && Valid() && head' == head && data[..] == s
        invariant if bufsize == 0 then head == old(head)
                  else head as nat == Wrap(start + offset as nat, capacity as nat)
        invariant buf[..offset] == Window(s, start, offset as nat)
        invariant buf[offset..] == old(buf[offset..])
        invariant passes == 0 ==> offset == 0
        invariant passes == 1 ==> offset == bufsize || head' == 0
        invariant passes >= 2 ==> passes == 2 && offset == bufsize
      {
        var remaining := capacity - head';
        var available := bufsize - offset;
        var length := Least(remaining, available);
        WindowSplits(s, start, offset as nat, length as nat);
        assert data[head'..head' + length] == s[head'..head' + length];
        head' := ReadChunk(buf, offset as nat, length);
        offset := offset + length;
        passes := passes + 1;
      }
      read := bufsize;
    }

    /** What Read means for the queue, when the bytes asked for are queued and when they are not. */
    method ReadOut(buf: array<byte>, bufsize: size_t) returns (read: size_t)
      requires Valid() && buf != data
      requires bufsize as int <= buf.Length && bufsize <= mask
      modifies this`head, buf
      ensures Valid() && read == bufsize
      ensures buf[bufsize..] == old(buf[bufsize..])
      ensures bufsize as nat <= old(Length()) ==>
                && buf[..bufsize] == old(Contents())[..bufsize]
                && Contents() == old(Contents())[bufsize..]
      ensures bufsize as nat > old(Length()) ==>
                && buf[..|old(Contents())|] == old(Contents())
                && head as nat == Wrap(tail as nat + (bufsize as nat - old(Length())), capacity as nat)
                && Length() + (bufsize as nat - old(Length())) == capacity as nat
    {
      ghost var q, s, h := Contents(), data[..], head as nat;
      ghost var passes;
      read, passes := Read(buf, bufsize);
      assert data[..] == s;
      if bufsize as nat <= |q| {
        QueuedFront(s, h, tail as nat, bufsize as nat);
      } else {
        HeadOverruns(s, h, tail as nat, bufsize as nat);
        assert buf[..|q|] == buf[..bufsize][..|q|];
      }
    }

    /** Advance `head` over `d` queued bytes. */
    method Skip(d: size_t)
      requires Valid() && 0 < d as nat <= Length()
      modifies this`head
      ensures Valid() && Contents() == old(Contents())[d..]
      ensures head as nat == Wrap(old(head) as nat + d as nat, capacity as nat)
    {
      MaskWraps(head as nat + d as nat, capacity as nat);
      QueuedAdvances(data[..], head as nat, tail as nat, d as nat);
      head := Masked(head + d, mask);
    }

    method Push(buf: seq<byte>, bufsize: size_t) returns (pushed: size_t)
      requires Valid() && bufsize as int == |buf|
      modifies this, data
      ensures Valid() && pushed == bufsize
      ensures Contents() == DropQueue.Push(old(Contents()), mask as nat, buf)
      ensures |buf| < mask as int && |buf| <= mask as int - old(Length()) ==> head == old(head)
    {
      hide IsPow2, Queued, DropQueue.Push;
      var capacity' := Capacity();
      var available := Available();
      if bufsize >= capacity' {
        var offset := bufsize - capacity';
        DropQueue.PushOversized(Contents(), mask as nat, buf);
        tail := 0;
        head := 1;
        CopyInto(data, 1, buf[offset..]);
        assert data[..][1..] == buf[offset..];
        QueuedReset(data[..]);
      } else {
        if bufsize > available {
          var offset := bufsize - available;
          DropQueue.PushOverflowing(Contents(), mask as nat, buf);
          Skip(offset);
        } else {
          DropQueue.PushDrops(Contents(), mask as nat, buf);
        }
        ghost var written, passes := Write(buf, bufsize);
      }
      pushed := bufsize;
    }

    method PopFront(buf: array<byte>, bufsize: size_t) returns (read: size_t)
      requires Valid() && buf != data && bufsize as int <= buf.Length
      modifies this`head, buf
      ensures Valid()
      ensures var r := DropQueue.PopFront(old(Contents()), bufsize as nat);
              && read as int == |r.taken|
              && buf[..read] == r.taken
              && Contents() == r.rest
      ensures buf[read..] == old(buf[..])[read..]
    {
      var remaining := Remaining();
      read := ReadOut(buf, Least(bufsize, remaining));
    }

    method PopBack(buf: array<byte>, bufsize: size_t) returns (read: size_t)
      requires Valid() && buf != data && bufsize as int <= buf.Length
      modifies this`head, buf
      ensures Valid()
      ensures var r := DropQueue.PopBack(old(Contents()), bufsize as nat);
              && read as int == |r.taken|
              && buf[..read] == r.taken
              && Contents() == r.rest
      ensures buf[read..] == old(buf[..])[read..]
    {
      var remaining := Remaining();
      var wanted := Least(bufsize, remaining);
      var diff := remaining - wanted;
      if diff > 0 {
        Skip(diff);
      }
      read := ReadOut(buf, wanted);
    }

    /** The count passed to the final copy is the one taken before the skip. Inside
        the contract that makes no difference; outside it `head` runs past `tail`
        and bytes that are not queued are handed out. */
    method PopBackFrom(buf: array<byte>, bufsize: size_t, offset: size_t) returns (read: size_t)
      requires Valid() && buf != data && bufsize as int <= buf.Length
      modifies this`head, buf
      ensures Valid()
      ensures read as nat == Min(bufsize as nat, old(Length()))
      ensures buf[read..] == old(buf[..])[read..]
      ensures var r := DropQueue.PopBackFrom(old(Contents()), bufsize as nat, offset as nat);
              if DropQueue.InContract(old(Length()), bufsize as nat, offset as nat) then
                && read as int == |r.taken|
                && buf[..read] == r.taken
                && Contents() == r.rest
              else
                && read > offset
                && buf[..offset] == r.taken
                && head as nat == Wrap(tail as nat + (read - offset) as nat, capacity as nat)
                && Length() + (read - offset) as nat == capacity as nat
    {
      hide IsPow2, Queued, Wrap;
      var remaining := Remaining();
      if remaining > offset {
        var diff := remaining - offset;
        Skip(diff);
      }
      read := ReadOut(buf, Least(bufsize, remaining));
    }

    method Flush()
      requires Valid()
      modifies this`head, this`tail
      ensures Valid() && Contents() == []
    {
      head, tail := 0, 0;
    }
  }
}
