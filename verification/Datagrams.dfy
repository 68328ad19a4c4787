/** UdpPeerReadHalf of audiowire/src/peer.rs: exact reads put together from datagrams. */
module Datagrams {
  import opened Bits
  import opened Sequences
  import opened Circular
  import opened Memory
  import Framing

  /** How a read comes out. `Panicked` is `clone_from_slice` on slices of different lengths. */
  datatype Outcome = Done | Eof | Panicked

  /** The outcome, what the buffer then holds, and the reader's new state. */
  datatype Reading = Reading(outcome: Outcome, filled: seq<byte>,
                             leftover: Option<seq<byte>>, backlog: seq<seq<byte>>)

  /** The loop that fills `buf` from `off` on with datagrams off the backlog. */
  function Fill(buf: seq<byte>, off: nat, leftover: Option<seq<byte>>, backlog: seq<seq<byte>>): Reading
    decreases |backlog|
  {
    if off >= |buf| then Reading(Done, buf, leftover, backlog)
    else if backlog == [] then Reading(Eof, buf, leftover, [])
    else
      var src, remaining := backlog[0], |buf| - off;
      if remaining == |src| then Fill(Overlay(buf, off, src), off + |src|, leftover, backlog[1..])
      else if remaining > |src| then
        if remaining - |src| != |src| then Reading(Panicked, buf, leftover, backlog[1..])
        else Fill(Overlay(buf, off, src), off + |src|, leftover, backlog[1..])
      else Fill(Overlay(buf, off, src[..remaining]), |buf|, Some(src[remaining..]), backlog[1..])
  }

  function Reassemble(buf: seq<byte>, leftover: Option<seq<byte>>, backlog: seq<seq<byte>>): Reading {
    match leftover
    case None => Fill(buf, 0, None, backlog)
    case Some(src) =>
      if |buf| == |src| then Reading(Done, src, None, backlog)
      else if |buf| < |src| then Reading(Done, src[..|buf|], Some(src[|buf|..]), backlog)
      else Fill(Overlay(buf, 0, src), |buf| - |src|, None, backlog)
  }

  class UdpPeerReadHalf {
    var leftover: Option<seq<byte>>
    /** The datagrams still to be received, in order, before the channel closes. */
    var backlog: seq<seq<byte>>

    constructor (datagrams: seq<seq<byte>>)
      ensures leftover == None && backlog == datagrams
    {
      leftover, backlog := None, datagrams;
    }

    /** Fills the slice of `arr` that starts at `at` and is `buflen` long. */
    method ReadExact(arr: array<byte>, at: nat, buflen: nat) returns (outcome: Outcome)
      requires at + buflen <= arr.Length
      modifies this, arr
      ensures Reading(outcome, arr[at..at + buflen], leftover, backlog)
              == Reassemble(old(arr[at..at + buflen]), old(leftover), old(backlog))
      ensures arr[..at] == old(arr[..at]) && arr[at + buflen..] == old(arr[at + buflen..])
    {
      hide Overlay;
      var off: nat := 0;
      if leftover.Some? {
        var src := leftover.value;
        var srclen := |src|;
        if buflen == srclen {
          PutSlice(arr, at, buflen, 0, src);
          OverlayAll(old(arr[at..at + buflen]), src);
          leftover := None;
          off := buflen;
        } else if buflen < srclen {
          PutSlice(arr, at, buflen, 0, src[..buflen]);
          OverlayAll(old(arr[at..at + buflen]), src[..buflen]);
          leftover := Some(src[buflen..]);
          off := buflen;
        } else {
          PutSlice(arr, at, buflen, 0, src);
          leftover := None;
          off := buflen - srclen;
        }
      }
      while off < buflen
        invariant off <= buflen
        invariant Fill(arr[at..at + buflen], off, leftover, backlog)
                  == Reassemble(old(arr[at..at + buflen]), old(leftover), old(backlog))
        invariant arr[..at] == old(arr[..at]) && arr[at + buflen..] == old(arr[at + buflen..])
        decreases |backlog|
      {
        if backlog == [] {
          return Eof;
        }
        var src := backlog[0];
        backlog := backlog[1..];
        var srclen := |src|;
        var remaining := buflen - off;
        if remaining == srclen {
          PutSlice(arr, at, buflen, off, src);
          off := off + srclen;
        } else if remaining > srclen {
          var diff := remaining - srclen;
          if diff != srclen {
            return Panicked;
          }
          PutSlice(arr, at, buflen, off, src);
          off := off + srclen;
        } else {
          PutSlice(arr, at, buflen, off, src[..remaining]);
          leftover := Some(src[remaining..]);
          off := off + remaining;
        }
      }
      outcome := Done;
    }
  }

  /** `buf[off..].clone_from_slice(src)` where `buf` is the slice of `arr` at `at`. */
  method PutSlice(arr: array<byte>, at: nat, n: nat, off: nat, src: seq<byte>)
    requires at + n <= arr.Length && off + |src| <= n
    modifies arr
    ensures arr[at..at + n] == Overlay(old(arr[at..at + n]), off, src)
    ensures arr[..at] == old(arr[..at]) && arr[at + n..] == old(arr[at + n..])
  {
    OverlaySlice(arr[..], at, n, off, src);
    CopyInto(arr, at + off, src);
  }

  // ---- conservation

  function Held(leftover: Option<seq<byte>>): seq<byte> {
    if leftover.Some? then leftover.value else []
  }

  /** The datagrams a read took off the backlog. */
  function TakenOff(backlog: seq<seq<byte>>, rest: seq<seq<byte>>): seq<seq<byte>> {
    if |rest| <= |backlog| then backlog[..|backlog| - |rest|] else []
  }

  ghost predicate Remains(rest: seq<seq<byte>>, backlog: seq<seq<byte>>) {
    |rest| <= |backlog| && rest == backlog[|backlog| - |rest|..]
  }

  /** What the loop promises from `off` on: it keeps what is already in front of `off`, takes
      datagrams in order, no more of them than bytes it fills, and on success has put all
      of their bytes into the buffer and the leftover. */
  ghost predicate Conserves(r: Reading, buf: seq<byte>, off: nat, backlog: seq<seq<byte>>) {
    && off <= |buf| && |r.filled| == |buf| && r.filled[..off] == buf[..off]
    && Remains(r.backlog, backlog)
    && (r.outcome.Done? ==>
          && |backlog| - |r.backlog| <= |buf| - off
          && Join(TakenOff(backlog, r.backlog)) == r.filled[off..] + Held(r.leftover))
  }

  lemma ConservesFurther(r: Reading, buf: seq<byte>, off: nat, backlog: seq<seq<byte>>)
    requires backlog != [] && backlog[0] != [] && off + |backlog[0]| <= |buf|
    requires Conserves(r, Overlay(buf, off, backlog[0]), off + |backlog[0]|, backlog[1..])
    ensures Conserves(r, buf, off, backlog)
  {
    hide Overlay, TakenOff, Remains;
    var src := backlog[0];
    TakenOffCons(backlog, r.backlog);
    FilledFurther(buf, off, src, r.filled);
    assert src + (r.filled[off + |src|..] + Held(r.leftover)) == r.filled[off..] + Held(r.leftover);
  }

  lemma ConservesLast(buf: seq<byte>, off: nat, backlog: seq<seq<byte>>)
    requires backlog != [] && off < |buf| && |buf| - off < |backlog[0]|
    ensures var src, room := backlog[0], |buf| - off;
            Conserves(Reading(Done, Overlay(buf, off, src[..room]), Some(src[room..]), backlog[1..]), buf, off, backlog)
  {
    var src, room := backlog[0], |buf| - off;
    var filled := Overlay(buf, off, src[..room]);
    FilledFurther(buf, off, src[..room], filled);
    hide Overlay, TakenOff, Remains;
    RemainsAfterOne(backlog);
    TakenOffCons(backlog, backlog[1..]);
    assert src == src[..room] + src[room..];
  }

  /** The loop conserves bytes. Every pass that does not panic advances. */
  lemma {:induction false} FillConserves(buf: seq<byte>, off: nat, backlog: seq<seq<byte>>)
    requires off <= |buf|
    ensures Conserves(Fill(buf, off, None, backlog), buf, off, backlog)
    decreases |backlog|
  {
    var r := Fill(buf, off, None, backlog);
    if off == |buf| {
      assert TakenOff(backlog, backlog) == [];
    } else if backlog != [] {
      var src, room := backlog[0], |buf| - off;
      if room == |src| || room == 2 * |src| {
        hide Conserves;
        FillConserves(Overlay(buf, off, src), off + |src|, backlog[1..]);
        ConservesFurther(r, buf, off, backlog);
      } else if room < |src| {
        hide Conserves;
        assert r == Fill(Overlay(buf, off, src[..room]), |buf|, Some(src[room..]), backlog[1..]);
        ConservesLast(buf, off, backlog);
      }
    }
  }

  lemma RemainsAfterOne(backlog: seq<seq<byte>>)
    requires backlog != []
    ensures Remains(backlog[1..], backlog) && Remains(backlog[1..], backlog[1..])
    ensures Join(TakenOff(backlog[1..], backlog[1..])) == []
  {
    assert TakenOff(backlog[1..], backlog[1..]) == [];
  }

  lemma TakenOffCons(backlog: seq<seq<byte>>, rest: seq<seq<byte>>)
    requires backlog != [] && Remains(rest, backlog[1..])
    ensures Remains(rest, backlog)
    ensures TakenOff(backlog, rest) == [backlog[0]] + TakenOff(backlog[1..], rest)
    ensures Join(TakenOff(backlog, rest)) == backlog[0] + Join(TakenOff(backlog[1..], rest))
  {
    assert TakenOff(backlog, rest)[1..] == TakenOff(backlog[1..], rest);
  }

  lemma FilledFurther(buf: seq<byte>, off: nat, src: seq<byte>, filled: seq<byte>)
    requires off + |src| <= |buf| == |filled|
    requires filled[..off + |src|] == Overlay(buf, off, src)[..off + |src|]
    ensures filled[..off] == buf[..off] && filled[off..] == src + filled[off + |src|..]
  {
    assert filled[..off] == filled[..off + |src|][..off];
    assert filled[off..off + |src|] == filled[..off + |src|][off..] == src;
  }

  /** Bytes are conserved by a read that succeeds if and only if there was no leftover, or
      it filled the buffer, or it was exactly half of it. */
  lemma ConservedExactly(buf: seq<byte>, leftover: Option<seq<byte>>, backlog: seq<seq<byte>>)
    ensures var r := Reassemble(buf, leftover, backlog);
            r.outcome.Done? ==>
              (Held(leftover) + Join(TakenOff(backlog, r.backlog)) == r.filled + Held(r.leftover)
               <==> leftover.None? || |leftover.value| >= |buf| || 2 * |leftover.value| == |buf|)
  {
    var r := Reassemble(buf, leftover, backlog);
    if leftover.None? {
      FillConserves(buf, 0, backlog);
    } else if |leftover.value| >= |buf| {
      assert TakenOff(backlog, backlog) == [];
    } else {
      var src := leftover.value;
      var buf', off := Overlay(buf, 0, src), |buf| - |src|;
      FillConserves(buf', off, backlog);
      if r.outcome.Done? && 2 * |src| == |buf| {
        assert r.filled[..off] == buf'[..off] == src;
        assert r.filled == r.filled[..off] + r.filled[off..];
      }
    }
  }

  // ---- how a read comes out

  function Exp2(i: nat): (p: nat)
    ensures p > 0
  {
    if i == 0 then 1 else 2 * Exp2(i - 1)
  }

  /** Each of the first `k` datagrams is half of what was still missing of `room` bytes when
      it came: the first half of `room`, the second a quarter, and so on. */
  predicate Halves(ds: seq<seq<byte>>, k: nat, room: nat)
    requires k <= |ds|
  {
    forall i :: 0 <= i < k ==> |ds[i]| * Exp2(i + 1) == room
  }

  /** After `k` such halves the next datagram is too short and no half. */
  predicate FailsAt(ds: seq<seq<byte>>, k: nat, room: nat) {
    k < |ds| && Halves(ds, k, room) && |ds[k]| * Exp2(k) < room && |ds[k]| * Exp2(k + 1) != room
  }

  /** After `k` such halves the next datagram is long enough. */
  predicate FillsAt(ds: seq<seq<byte>>, k: nat, room: nat) {
    k < |ds| && Halves(ds, k, room) && |ds[k]| * Exp2(k) >= room
  }

  lemma HalvesShift(ds: seq<seq<byte>>, k: nat, room: nat)
    requires ds != [] && 2 * |ds[0]| == room && k < |ds|
    ensures Halves(ds, k + 1, room) <==> Halves(ds[1..], k, |ds[0]|)
  {
  }

  lemma ShiftAt(ds: seq<seq<byte>>, k: nat, room: nat)
    requires ds != [] && 2 * |ds[0]| == room
    ensures FailsAt(ds, k + 1, room) <==> FailsAt(ds[1..], k, |ds[0]|)
    ensures FillsAt(ds, k + 1, room) <==> FillsAt(ds[1..], k, |ds[0]|)
  {
    if k + 1 < |ds| {
      HalvesShift(ds, k, room);
      hide Halves;
      var x := |ds[k + 1]|;
      assert x * Exp2(k + 1) == 2 * (x * Exp2(k));
      assert x * Exp2(k + 2) == 2 * (x * Exp2(k + 1));
    }
  }

  lemma NotAtFirst(ds: seq<seq<byte>>, room: nat)
    requires ds != [] && 2 * |ds[0]| == room > 0
    ensures !FailsAt(ds, 0, room) && !FillsAt(ds, 0, room)
  {
  }

  /** A datagram that is exactly half of what is missing leaves the same question for the rest. */
  lemma OutcomeShift(ds: seq<seq<byte>>, room: nat)
    requires ds != [] && 2 * |ds[0]| == room > 0
    ensures (exists k: nat :: FailsAt(ds, k, room)) <==> (exists k: nat :: FailsAt(ds[1..], k, |ds[0]|))
    ensures (exists k: nat :: FillsAt(ds, k, room)) <==> (exists k: nat :: FillsAt(ds[1..], k, |ds[0]|))
  {
    NotAtFirst(ds, room);
    hide FailsAt, FillsAt;
    if k: nat :| FailsAt(ds, k, room) {
      ShiftAt(ds, k - 1, room);
    }
    if k: nat :| FillsAt(ds, k, room) {
      ShiftAt(ds, k - 1, room);
    }
    if k: nat :| FailsAt(ds[1..], k, |ds[0]|) {
      ShiftAt(ds, k, room);
    }
    if k: nat :| FillsAt(ds[1..], k, |ds[0]|) {
      ShiftAt(ds, k, room);
    }
  }

  /** Exactly how the loop comes out, for `room` bytes still missing. */
  ghost predicate ComesOut(outcome: Outcome, ds: seq<seq<byte>>, room: nat) {
    && (outcome == Panicked <==> exists k: nat :: FailsAt(ds, k, room))
    && (outcome == Done <==> room == 0 || exists k: nat :: FillsAt(ds, k, room))
    && (outcome == Eof <==> room > 0 && Halves(ds, |ds|, room))
  }

  /** Unless the first datagram is half of what is missing, it decides. */
  lemma FirstDecides(ds: seq<seq<byte>>, room: nat)
    requires ds != [] && 2 * |ds[0]| != room > 0
    ensures ComesOut(if |ds[0]| >= room then Done else Panicked, ds, room)
  {
    assert Exp2(0) == 1 && Exp2(1) == 2;
    forall k: nat | 0 < k <= |ds|
      ensures !Halves(ds, k, room)
    {
      assert |ds[0]| * Exp2(0 + 1) != room;
    }
    assert if |ds[0]| >= room then FillsAt(ds, 0, room) else FailsAt(ds, 0, room);
  }

  lemma {:induction false} FillComesOut(buf: seq<byte>, off: nat, leftover: Option<seq<byte>>, ds: seq<seq<byte>>)
    requires off <= |buf|
    ensures ComesOut(Fill(buf, off, leftover, ds).outcome, ds, |buf| - off)
    decreases |ds|
  {
    var room := |buf| - off;
    if room == 0 {
      NothingMissing(ds);
    } else if ds != [] {
      var src := ds[0];
      if room == 2 * |src| {
        FillComesOut(Overlay(buf, off, src), off + |src|, leftover, ds[1..]);
        hide Overlay, FailsAt, FillsAt;
        OutcomeShift(ds, room);
        HalvesShift(ds, |ds| - 1, room);
      } else {
        FillDecides(buf, off, leftover, ds);
        FirstDecides(ds, room);
      }
    }
  }

  lemma NothingMissing(ds: seq<seq<byte>>)
    ensures ComesOut(Done, ds, 0)
  {
  }

  lemma FillDecides(buf: seq<byte>, off: nat, leftover: Option<seq<byte>>, ds: seq<seq<byte>>)
    requires off < |buf| && ds != [] && |buf| - off != 2 * |ds[0]|
    ensures Fill(buf, off, leftover, ds).outcome == if |ds[0]| >= |buf| - off then Done else Panicked
  {
  }

  /** What the loop takes to be missing: a short leftover of `m` bytes counts as all but
      `m` bytes of the buffer. */
  function Missing(buf: seq<byte>, leftover: Option<seq<byte>>): nat {
    match leftover
    case None => |buf|
    case Some(src) => if |src| >= |buf| then 0 else |src|
  }

  /** Exactly when a read succeeds, waits for ever or panics, for every request, leftover
      and backlog: datagrams are taken as long as each is half of what is missing; the
      first that is not decides. */
  lemma OutcomeExactly(buf: seq<byte>, leftover: Option<seq<byte>>, ds: seq<seq<byte>>)
    ensures var r, room := Reassemble(buf, leftover, ds), Missing(buf, leftover);
            && (r.outcome == Panicked <==> exists k: nat :: FailsAt(ds, k, room))
            && (r.outcome == Done <==> room == 0 || exists k: nat :: FillsAt(ds, k, room))
            && (r.outcome == Eof <==> room > 0 && Halves(ds, |ds|, room))
  {
    hide FailsAt, FillsAt, Halves;
    match leftover
    case None =>
      FillComesOut(buf, 0, None, ds);
    case Some(src) =>
      if |src| >= |buf| {
        NothingMissing(ds);
      } else {
        FillComesOut(Overlay(buf, 0, src), |buf| - |src|, None, ds);
      }
  }

  // ---- requests that split each datagram exactly

  /** A reader that makes one request per buffer, until one does not succeed. */
  datatype Session = Session(ok: bool, results: seq<seq<byte>>, leftover: Option<seq<byte>>, backlog: seq<seq<byte>>)

  function ReadAll(leftover: Option<seq<byte>>, backlog: seq<seq<byte>>, bufs: seq<seq<byte>>): Session
    decreases |bufs|
  {
    if bufs == [] then Session(true, [], leftover, backlog)
    else
      var r := Reassemble(bufs[0], leftover, backlog);
      if !r.outcome.Done? then Session(false, [], r.leftover, r.backlog)
      else
        var s := ReadAll(r.leftover, r.backlog, bufs[1..]);
        s.(results := [r.filled] + s.results)
  }

  function Total(bufs: seq<seq<byte>>): nat {
    if bufs == [] then 0 else |bufs[0]| + Total(bufs[1..])
  }

  /** `d` cut into pieces as long as the buffers. */
  function Cut(d: seq<byte>, bufs: seq<seq<byte>>): seq<seq<byte>>
    requires Total(bufs) == |d|
    decreases |bufs|
  {
    if bufs == [] then [] else [d[..|bufs[0]|]] + Cut(d[|bufs[0]|..], bufs[1..])
  }

  lemma {:induction false} CutJoins(d: seq<byte>, bufs: seq<seq<byte>>)
    requires Total(bufs) == |d|
    ensures Join(Cut(d, bufs)) == d && |Cut(d, bufs)| == |bufs|
    decreases |bufs|
  {
    if bufs != [] {
      CutJoins(d[|bufs[0]|..], bufs[1..]);
      assert Cut(d, bufs)[1..] == Cut(d[|bufs[0]|..], bufs[1..]);
    }
  }

  /** What is left of a datagram, as the reader stores it. */
  function Leftover(d: seq<byte>): Option<seq<byte>> {
    if d == [] then None else Some(d)
  }

  /** One request within what is left of a datagram. */
  lemma RestOfDatagram(d: seq<byte>, backlog: seq<seq<byte>>, buf: seq<byte>)
    requires |buf| <= |d|
    ensures Reassemble(buf, Leftover(d), backlog) == Reading(Done, d[..|buf|], Leftover(d[|buf|..]), backlog)
  {
  }

  /** One request that opens a datagram. */
  lemma OpensDatagram(d: seq<byte>, backlog: seq<seq<byte>>, buf: seq<byte>)
    requires 0 < |buf| <= |d|
    ensures Reassemble(buf, None, [d] + backlog) == Reading(Done, d[..|buf|], Leftover(d[|buf|..]), backlog)
  {
    var all := [d] + backlog;
    assert all[1..] == backlog;
    assert Overlay(buf, 0, d[..|buf|]) == d[..|buf|];
    if |buf| == |d| {
      assert d[..|d|] == d && d[|d|..] == [];
      assert Fill(d, |d|, None, backlog) == Reading(Done, d, None, backlog);
    } else {
      assert Fill(d[..|buf|], |buf|, Some(d[|buf|..]), backlog) == Reading(Done, d[..|buf|], Some(d[|buf|..]), backlog);
    }
  }

  lemma {:induction false} RestOfDatagramReads(d: seq<byte>, backlog: seq<seq<byte>>, bufs: seq<seq<byte>>)
    requires Total(bufs) == |d|
    ensures ReadAll(Leftover(d), backlog, bufs) == Session(true, Cut(d, bufs), None, backlog)
    decreases |bufs|
  {
    hide Reassemble;
    if bufs != [] {
      RestOfDatagram(d, backlog, bufs[0]);
      RestOfDatagramReads(d[|bufs[0]|..], backlog, bufs[1..]);
    }
  }

  /** Requests that add up to a datagram read exactly that datagram. */
  lemma {:induction false} DatagramReads(d: seq<byte>, backlog: seq<seq<byte>>, bufs: seq<seq<byte>>)
    requires d != [] && Total(bufs) == |d|
    ensures ReadAll(None, [d] + backlog, bufs) == Session(true, Cut(d, bufs), None, backlog)
    decreases |bufs|
  {
    hide Reassemble;
    if bufs[0] == [] {
      RestOfDatagram([], [d] + backlog, []);
      DatagramReads(d, backlog, bufs[1..]);
      assert d[0..] == d;
    } else {
      OpensDatagram(d, backlog, bufs[0]);
      RestOfDatagramReads(d[|bufs[0]|..], backlog, bufs[1..]);
    }
  }

  lemma {:induction false} SessionsChain(leftover: Option<seq<byte>>, backlog: seq<seq<byte>>,
                                         a: seq<seq<byte>>, b: seq<seq<byte>>)
    requires ReadAll(leftover, backlog, a).ok
    ensures var s := ReadAll(leftover, backlog, a);
            var t := ReadAll(s.leftover, s.backlog, b);
            ReadAll(leftover, backlog, a + b) == t.(results := s.results + t.results)
    decreases |a|
  {
    hide Reassemble;
    if a == [] {
      assert a + b == b;
      assert [] + ReadAll(leftover, backlog, b).results == ReadAll(leftover, backlog, b).results;
    } else {
      var r := Reassemble(a[0], leftover, backlog);
      SessionsChain(r.leftover, r.backlog, a[1..], b);
      assert (a + b)[1..] == a[1..] + b && (a + b)[0] == a[0];
      var s := ReadAll(r.leftover, r.backlog, a[1..]);
      var t := ReadAll(s.leftover, s.backlog, b);
      assert [r.filled] + (s.results + t.results) == ([r.filled] + s.results) + t.results;
    }
  }

  function Cuts(ds: seq<seq<byte>>, requests: seq<seq<seq<byte>>>): seq<seq<byte>>
    requires Splits(ds, requests)
    decreases |ds|
  {
    if ds == [] then [] else Cut(ds[0], requests[0]) + Cuts(ds[1..], requests[1..])
  }

  /** The i-th group of requests adds up to the i-th datagram, and none is empty. */
  ghost predicate Splits(ds: seq<seq<byte>>, requests: seq<seq<seq<byte>>>) {
    |requests| == |ds| && forall i :: 0 <= i < |ds| ==> ds[i] != [] && Total(requests[i]) == |ds[i]|
  }

  /** One packet a datagram: when the requests split each datagram exactly, no read fails
      or panics, the bytes come back exactly as sent, and nothing is left over at the end
      of a datagram. */
  lemma {:induction false} ReassemblesExactly(ds: seq<seq<byte>>, requests: seq<seq<seq<byte>>>, more: seq<seq<byte>>)
    requires Splits(ds, requests)
    ensures ReadAll(None, ds + more, Join(requests)) == Session(true, Cuts(ds, requests), None, more)
    ensures Join(Cuts(ds, requests)) == Join(ds)
    decreases |ds|
  {
    if ds == [] {
      assert ds + more == more;
    } else {
      var d, rest := ds[0], ds[1..];
      assert ds + more == [d] + (rest + more);
      assert Total(requests[0]) == |d|;
      DatagramReads(d, rest + more, requests[0]);
      assert Splits(rest, requests[1..]);
      ReassemblesExactly(rest, requests[1..], more);
      SessionsChain(None, ds + more, requests[0], Join(requests[1..]));
      CutJoins(d, requests[0]);
      JoinAppends(Cut(d, requests[0]), Cuts(rest, requests[1..]));
    }
  }

  // ---- Opus packets, one a datagram

  /** The datagrams of the packets. */
  function Frames(packets: seq<seq<byte>>): seq<seq<byte>> {
    if packets == [] then [] else [Framing.Frame(packets[0])] + Frames(packets[1..])
  }

  datatype ReceiveEnd = Terminated | Disconnected | Oversized | Crashed

  /** How one round of the Opus playback loop reads: a packet, with what the 8192-byte buffer
      then holds, or the end of the loop. */
  datatype Round =
    | Got(packet: seq<byte>, tmp: seq<byte>, leftover: Option<seq<byte>>, backlog: seq<seq<byte>>)
    | Stops(end: ReceiveEnd, leftover: Option<seq<byte>>, backlog: seq<seq<byte>>)

  function EndOf(outcome: Outcome): ReceiveEnd {
    if outcome == Eof then Disconnected else Crashed
  }

  /** Two bytes into the front of the buffer, then as many bytes behind them as those two
      say, the slice of the buffer panicking when there are too many. */
  function ReceiveOne(tmp: seq<byte>, leftover: Option<seq<byte>>, backlog: seq<seq<byte>>): (r: Round)
    requires |tmp| == 8192
    ensures r.Got? ==> |r.tmp| == 8192
  {
    ReassembleLength(tmp[..2], leftover, backlog);
    var head := Reassemble(tmp[..2], leftover, backlog);
    if head.outcome != Done then Stops(EndOf(head.outcome), head.leftover, head.backlog)
    else
      var length := Framing.FromBigEndian(head.filled);
      if length > Framing.MAX_PACKET then Stops(Oversized, head.leftover, head.backlog)
      else
        ReassembleLength(tmp[2..2 + length], head.leftover, head.backlog);
        var data := Reassemble(tmp[2..2 + length], head.leftover, head.backlog);
        if data.outcome != Done then Stops(EndOf(data.outcome), data.leftover, data.backlog)
        else Got(data.filled, head.filled + data.filled + tmp[2 + length..], data.leftover, data.backlog)
  }

  /** What the loop hands to the decoder, how it ends, and the reader's state. */
  datatype Received = Received(packets: seq<seq<byte>>, end: ReceiveEnd,
                               leftover: Option<seq<byte>>, backlog: seq<seq<byte>>)

  /** The reads of `rounds` rounds of handle_opus_playback_stream, every packet being decoded. */
  function Receive(tmp: seq<byte>, leftover: Option<seq<byte>>, backlog: seq<seq<byte>>, rounds: nat): Received
    requires |tmp| == 8192
    decreases rounds
  {
    if rounds == 0 then Received([], Terminated, leftover, backlog)
    else
      match ReceiveOne(tmp, leftover, backlog)
      case Stops(end, leftover', backlog') => Received([], end, leftover', backlog')
      case Got(packet, tmp', leftover', backlog') =>
        var r := Receive(tmp', leftover', backlog', rounds - 1);
        r.(packets := [packet] + r.packets)
  }

  lemma {:induction false} FillLength(buf: seq<byte>, off: nat, leftover: Option<seq<byte>>, backlog: seq<seq<byte>>)
    ensures |Fill(buf, off, leftover, backlog).filled| == |buf|
    decreases |backlog|
  {
    if off < |buf| && backlog != [] {
      var src, remaining := backlog[0], |buf| - off;
      if remaining == |src| || remaining == 2 * |src| {
        FillLength(Overlay(buf, off, src), off + |src|, leftover, backlog[1..]);
      } else if remaining < |src| {
        FillLength(Overlay(buf, off, src[..remaining]), |buf|, Some(src[remaining..]), backlog[1..]);
      }
    }
  }

  lemma ReassembleLength(buf: seq<byte>, leftover: Option<seq<byte>>, backlog: seq<seq<byte>>)
    ensures |Reassemble(buf, leftover, backlog).filled| == |buf|
  {
    match leftover
    case None =>
      FillLength(buf, 0, None, backlog);
    case Some(src) =>
      if |buf| > |src| {
        FillLength(Overlay(buf, 0, src), |buf| - |src|, None, backlog);
      }
  }

  /** The buffer before a round, after its first read, and after its second. */
  lemma BufferParts(s: seq<byte>, t: seq<byte>, u: seq<byte>, length: nat)
    requires 2 + length <= |s| == |t| == |u| && t[2..] == s[2..]
    ensures t[2..2 + length] == s[2..2 + length]
    ensures u[..2] == t[..2] && u[2 + length..] == t[2 + length..] ==>
              u == t[..2] + u[2..2 + length] + s[2 + length..]
  {
    assert t[2..][..length] == s[2..][..length] && t[2..][length..] == s[2..][length..];
    assert t[2 + length..] == t[2..][length..] && s[2 + length..] == s[2..][length..];
  }

  /** One round, over the reader. */
  method ReadRound(peer: UdpPeerReadHalf, tmp: array<byte>) returns (packet: Option<seq<byte>>, end: ReceiveEnd)
    requires tmp.Length == 8192
    modifies peer, tmp
    ensures ReceiveOne(old(tmp[..]), old(peer.leftover), old(peer.backlog))
            == match packet
               case Some(p) => Got(p, tmp[..], peer.leftover, peer.backlog)
               case None => Stops(end, peer.leftover, peer.backlog)
  {
    hide Reassemble, Framing.FromBigEndian;
    ghost var s := tmp[..];
    packet, end := None, Terminated;
    var outcome := peer.ReadExact(tmp, 0, 2);
    assert s[0..2] == s[..2] && tmp[0..2] == tmp[..2];
    if outcome != Done {
      return None, EndOf(outcome);
    }
    ghost var t := tmp[..];
    var length := Framing.FromBigEndian(tmp[..2]);
    if length > Framing.MAX_PACKET {
      return None, Oversized;
    }
    BufferParts(s, t, t, length);
    outcome := peer.ReadExact(tmp, 2, length);
    if outcome != Done {
      return None, EndOf(outcome);
    }
    BufferParts(s, t, tmp[..], length);
    packet := Some(tmp[2..2 + length]);
  }

  lemma PacketsFurther(before: seq<seq<byte>>, packet: seq<byte>, after: seq<seq<byte>>)
    ensures before + ([packet] + after) == (before + [packet]) + after
  {
  }

  /** The loop itself, over the reader. */
  method ReceiveOpus(peer: UdpPeerReadHalf, tmp: array<byte>, rounds: nat) returns (packets: seq<seq<byte>>, end: ReceiveEnd)
    requires tmp.Length == 8192
    modifies peer, tmp
    ensures Received(packets, end, peer.leftover, peer.backlog)
            == Receive(old(tmp[..]), old(peer.leftover), old(peer.backlog), rounds)
  {
    hide ReceiveOne;
    packets := [];
    var i := 0;
    while i < rounds
      invariant i <= rounds
      invariant var r := Receive(tmp[..], peer.leftover, peer.backlog, rounds - i);
                Receive(old(tmp[..]), old(peer.leftover), old(peer.backlog), rounds) == r.(packets := packets + r.packets)
    {
      assert packets + [] == packets;
      var packet;
      packet, end := ReadRound(peer, tmp);
      if packet.None? {
        return;
      }
      PacketsFurther(packets, packet.value, Receive(tmp[..], peer.leftover, peer.backlog, rounds - i - 1).packets);
      packets := packets + [packet.value];
      i := i + 1;
    }
    assert packets + [] == packets;
    end := Terminated;
  }

  /** A round on a datagram that holds one framed packet. */
  lemma RoundReads(tmp: seq<byte>, packet: seq<byte>, backlog: seq<seq<byte>>)
    requires |tmp| == 8192 && |packet| <= Framing.MAX_PACKET
    ensures var r := ReceiveOne(tmp, None, [Framing.Frame(packet)] + backlog);
            r.Got? && r.packet == packet && r.leftover == None && r.backlog == backlog
  {
    var d := Framing.Frame(packet);
    Framing.BigEndianRoundTrip(|packet|);
    assert d[..2] == Framing.ToBigEndian(|packet|) && d[2..] == packet && packet[..|packet|] == packet;
    OpensDatagram(d, backlog, tmp[..2]);
    RestOfDatagram(packet, backlog, tmp[2..2 + |packet|]);
    hide Reassemble, Framing.FromBigEndian, Framing.ToBigEndian;
  }

  /** What a round makes of the first datagram: an empty one is a panic in the reader, one
      that announces more than 8190 bytes a panic in the loop, and one that holds at least as
      many bytes as it announces gives those and leaves the others over. */
  lemma RoundOnDatagram(tmp: seq<byte>, d: seq<byte>, backlog: seq<seq<byte>>)
    requires |tmp| == 8192
    ensures d == [] ==> ReceiveOne(tmp, None, [d] + backlog) == Stops(Crashed, None, backlog)
    ensures |d| >= 2 ==>
              var r, length := ReceiveOne(tmp, None, [d] + backlog), d[0] as nat * 256 + d[1] as nat;
              && (length > 8190 ==> r.Stops? && r.end == Oversized)
              && (length <= 8190 && length <= |d| - 2 ==>
                    r.Got? && r.packet == d[2..2 + length]
                    && r.leftover == Leftover(d[2 + length..]) && r.backlog == backlog)
    ensures ReceiveOne(tmp, None, []) == Stops(Disconnected, None, [])
  {
    if d == [] {
      assert ([d] + backlog)[1..] == backlog;
    } else if |d| >= 2 {
      OpensDatagram(d, backlog, tmp[..2]);
      var length := d[0] as nat * 256 + d[1] as nat;
      if length <= 8190 && length <= |d| - 2 {
        RestOfDatagram(d[2..], backlog, tmp[2..2 + length]);
        assert d[2..][..length] == d[2..2 + length] && d[2..][length..] == d[2 + length..];
      }
    }
  }

  lemma FirstThenRest(s: seq<seq<byte>>, more: seq<seq<byte>>)
    requires s != []
    ensures s + more == [s[0]] + (s[1..] + more)
  {
  }

  /** Over datagrams the Opus playback loop decodes the length of every packet from the two
      bytes it has just read and so gets exactly the packets sent, one a datagram, with no
      datagram left over; then it goes on with what comes after. */
  lemma {:induction false} OpusOverDatagrams(tmp: seq<byte>, packets: seq<seq<byte>>, more: seq<seq<byte>>, rounds: nat)
    returns (tmp': seq<byte>)
    requires |tmp| == 8192 && Framing.Fit(packets) && |packets| <= rounds
    ensures |tmp'| == 8192
    ensures var r := Receive(tmp', None, more, rounds - |packets|);
            Receive(tmp, None, Frames(packets) + more, rounds) == r.(packets := packets + r.packets)
    decreases |packets|
  {
    hide Framing.Frame, ReceiveOne;
    if packets == [] {
      tmp' := tmp;
      assert Frames(packets) + more == more;
      assert [] + Receive(tmp, None, more, rounds).packets == Receive(tmp, None, more, rounds).packets;
    } else {
      var p, rest := packets[0], packets[1..];
      FirstThenRest(Frames(packets), more);
      RoundReads(tmp, p, Frames(rest) + more);
      tmp' := OpusOverDatagrams(ReceiveOne(tmp, None, Frames(packets) + more).tmp, rest, more, rounds - 1);
      var r := Receive(tmp', None, more, rounds - |packets|);
      FirstThenRest(packets, r.packets);
    }
  }

  /** The two ways such a session ends: told to stop after as many rounds as packets, or at
      the end of the datagrams. Nothing is left over either way. */
  lemma OpusSessionEnds(tmp: seq<byte>, packets: seq<seq<byte>>, more: seq<seq<byte>>, rounds: nat)
    requires |tmp| == 8192 && Framing.Fit(packets)
    ensures Receive(tmp, None, Frames(packets) + more, |packets|) == Received(packets, Terminated, None, more)
    ensures rounds > |packets| ==>
              Receive(tmp, None, Frames(packets), rounds) == Received(packets, Disconnected, None, [])
  {
    assert packets + [] == packets && Frames(packets) + [] == Frames(packets);
    var tmp1 := OpusOverDatagrams(tmp, packets, more, |packets|);
    if rounds > |packets| {
      var tmp2 := OpusOverDatagrams(tmp, packets, [], rounds);
      NoDatagrams(tmp2, rounds - |packets|);
    }
  }

  lemma NoDatagrams(tmp: seq<byte>, rounds: nat)
    requires |tmp| == 8192
    ensures rounds > 0 ==> Receive(tmp, None, [], rounds) == Received([], Disconnected, None, [])
  {
  }
}
