/** Positions and windows in a circular sequence. An index that has advanced by
    at most one turn is brought back by a single conditional subtraction; the
    sources do the same with a mask. */
module Circular {
  import opened Bits

  function Wrap(x: nat, cap: nat): nat {
    if x >= cap then x - cap else x
  }

  /** The `n` elements of `s` that start at `start`, going round the end. */
  function Window<T>(s: seq<T>, start: nat, n: nat): (w: seq<T>)
    requires start <= |s| && n <= |s|
    ensures |w| == n
  {
    if start + n <= |s| then s[start..start + n] else s[start..] + s[..start + n - |s|]
  }

  /** `s` with `chunk` copied in at `at`. */
  function Overlay<T>(s: seq<T>, at: nat, chunk: seq<T>): (r: seq<T>)
    requires at + |chunk| <= |s|
    ensures |r| == |s|
  {
    s[..at] + chunk + s[at + |chunk|..]
  }

  lemma OverlayAll<T>(s: seq<T>, chunk: seq<T>)
    requires |chunk| == |s|
    ensures Overlay(s, 0, chunk) == chunk
  {
  }

  /** Copying into a slice of `s` is copying into `s`. */
  lemma OverlaySlice<T>(s: seq<T>, at: nat, n: nat, off: nat, chunk: seq<T>)
    requires at + n <= |s| && off + |chunk| <= n
    ensures var r := Overlay(s, at + off, chunk);
            r[at..at + n] == Overlay(s[at..at + n], off, chunk) && r[..at] == s[..at] && r[at + n..] == s[at + n..]
  {
  }

  /** The masked index of the sources is the wrapped one. */
  lemma MaskWraps(x: nat, cap: nat)
    requires IsPow2(cap) && x < 2 * cap
    ensures BitAnd(x, cap - 1) == Wrap(x, cap)
  {
    BitAndMask(x, cap);
    if x >= cap {
      RemainderUnique(x, cap, 1, x - cap);
    } else {
      RemainderUnique(x, cap, 0, x);
    }
  }

  /** Copying a chunk in right behind a window lengthens the window by the chunk. */
  lemma WindowGrows<T>(s: seq<T>, start: nat, n: nat, chunk: seq<T>)
    requires start < |s| && n + |chunk| <= |s|
    requires Wrap(start + n, |s|) + |chunk| <= |s|
    ensures Window(Overlay(s, Wrap(start + n, |s|), chunk), start, n + |chunk|) == Window(s, start, n) + chunk
  {
  }

  /** Moving the start forward drops the front of a window. */
  lemma WindowAdvances<T>(s: seq<T>, start: nat, n: nat, d: nat)
    requires start < |s| && d <= n <= |s|
    ensures Window(s, Wrap(start + d, |s|), n - d) == Window(s, start, n)[d..]
  {
  }

  /** The part of a window before the array's end is a plain slice. */
  lemma WindowPrefix<T>(s: seq<T>, start: nat, n: nat, d: nat)
    requires start < |s| && d <= n <= |s| && start + d <= |s|
    ensures s[start..start + d] == Window(s, start, n)[..d]
  {
  }

  /** The front of a window is the shorter window. */
  lemma WindowShorter<T>(s: seq<T>, start: nat, n: nat, d: nat)
    requires start <= |s| && d <= n <= |s|
    ensures Window(s, start, d) == Window(s, start, n)[..d]
  {
  }

  /** A window extended by the slice that follows it. */
  lemma WindowSplits<T>(s: seq<T>, start: nat, n: nat, d: nat)
    requires start < |s| && n + d <= |s| && Wrap(start + n, |s|) + d <= |s|
    ensures Window(s, start, n + d) == Window(s, start, n) + s[Wrap(start + n, |s|)..Wrap(start + n, |s|) + d]
  {
  }

  // ---- a queue held between two indices

  /** The distance from `head` forward to `tail`. */
  function Span(head: nat, tail: nat, cap: nat): int {
    if head <= tail then tail - head else cap - head + tail
  }

  /** Indices of an array of `cap` elements; with a single element `head` may be one past it. */
  predicate Indices(head: nat, tail: nat, cap: nat) {
    tail < cap && (head < cap || (cap == 1 && head == 1))
  }

  function Queued<T>(s: seq<T>, head: nat, tail: nat): (q: seq<T>)
    requires Indices(head, tail, |s|)
    ensures |q| == Span(head, tail, |s|) < |s|
  {
    Window(s, head, Span(head, tail, |s|))
  }

  lemma QueuedAdvances<T>(s: seq<T>, head: nat, tail: nat, d: nat)
    requires Indices(head, tail, |s|) && 0 < d <= Span(head, tail, |s|)
    ensures var head' := Wrap(head + d, |s|);
            Indices(head', tail, |s|) && Queued(s, head', tail) == Queued(s, head, tail)[d..]
  {
    WindowAdvances(s, head, Span(head, tail, |s|), d);
  }

  lemma QueuedGrows<T>(s: seq<T>, head: nat, tail: nat, chunk: seq<T>)
    requires Indices(head, tail, |s|) && chunk != []
    requires tail + |chunk| <= |s| && Span(head, tail, |s|) + |chunk| < |s|
    ensures var tail' := Wrap(tail + |chunk|, |s|);
            Indices(head, tail', |s|) && Queued(Overlay(s, tail, chunk), head, tail') == Queued(s, head, tail) + chunk
  {
    WindowGrows(s, head, Span(head, tail, |s|), chunk);
  }

  /** With `head` at one and `tail` at zero everything but the first element is queued. */
  lemma QueuedReset<T>(s: seq<T>)
    requires |s| > 0
    ensures Indices(1, 0, |s|) && Queued(s, 1, 0) == s[1..]
  {
  }

  /** Reading `m` elements from `head` when all of them are queued. */
  lemma QueuedFront<T>(s: seq<T>, head: nat, tail: nat, m: nat)
    requires Indices(head, tail, |s|) && m <= Span(head, tail, |s|)
    ensures Window(s, head, m) == Queued(s, head, tail)[..m]
    ensures m == 0 ==> Queued(s, head, tail)[m..] == Queued(s, head, tail)
    ensures m > 0 ==>
              var head' := Wrap(head + m, |s|);
              Indices(head', tail, |s|) && Queued(s, head', tail) == Queued(s, head, tail)[m..]
  {
    WindowShorter(s, head, Span(head, tail, |s|), m);
    if m > 0 {
      QueuedAdvances(s, head, tail, m);
    }
  }

  /** Reading `m` elements from `head` when fewer are queued carries `head` past `tail`. */
  lemma HeadOverruns<T>(s: seq<T>, head: nat, tail: nat, m: nat)
    requires Indices(head, tail, |s|) && Span(head, tail, |s|) < m < |s|
    ensures var n, head' := Span(head, tail, |s|), Wrap(head + m, |s|);
            && Window(s, head, m)[..n] == Queued(s, head, tail)
            && head' == Wrap(tail + (m - n), |s|)
            && Span(head', tail, |s|) + (m - n) == |s|
  {
    WindowShorter(s, head, m, Span(head, tail, |s|));
  }
}
