/** Machine words: the `size_t` type of the C sources, bitwise "and", and the
    arithmetic of power-of-two masks. */
module Bits {

  /** `size_t` of a 64-bit target. Every arithmetic operation on this type is
      checked by Dafny against its range, so a method over it that verifies
      neither overflows nor underflows. */
  newtype size_t = x: int | 0 <= x < 0x1_0000_0000_0000_0000

  newtype byte = x: int | 0 <= x < 256

  const MAX_CAPACITY: nat := 0x8000_0000_0000_0000

  ghost predicate IsPow2(n: nat) {
    n == 1 || (n > 1 && n % 2 == 0 && IsPow2(n / 2))
  }

  /** Bitwise "and" of two naturals, least significant bit first. */
  function BitAnd(x: nat, y: nat): nat {
    if x == 0 || y == 0 then 0
    else (if x % 2 == 1 && y % 2 == 1 then 1 else 0) + 2 * BitAnd(x / 2, y / 2)
  }

  /** Bit `i` of `x`. */
  predicate Bit(x: nat, i: nat) {
    if i == 0 then x % 2 == 1 else Bit(x / 2, i - 1)
  }

  lemma {:induction false} BitOfZero(i: nat)
    ensures !Bit(0, i)
  {
    if i > 0 {
      BitOfZero(i - 1);
    }
  }

  /** BitAnd is the "and" of the operands' bits, position by position. */
  lemma {:induction false} BitAndBits(x: nat, y: nat, i: nat)
    ensures Bit(BitAnd(x, y), i) <==> Bit(x, i) && Bit(y, i)
  {
    if x == 0 || y == 0 {
      BitOfZero(i);
    } else {
      assert BitAnd(x, y) / 2 == BitAnd(x / 2, y / 2);
      if i > 0 {
        BitAndBits(x / 2, y / 2, i - 1);
      }
    }
  }

  lemma HalvedRemainder(x: nat, d: nat)
    requires d > 0
    ensures x % (2 * d) == 2 * ((x / 2) % d) + x % 2
  {
    var q, r := (x / 2) / d, (x / 2) % d;
    assert x / 2 == q * d + r;
    assert q * (2 * d) == 2 * (q * d);
    RemainderUnique(x, 2 * d, q, 2 * r + x % 2);
  }

  lemma BitAndOfOddMask(x: nat, d: nat)
    requires x > 0 && d > 0
    ensures BitAnd(x, 2 * d - 1) == 2 * BitAnd(x / 2, d - 1) + x % 2
  {
    assert (2 * d - 1) % 2 == 1 && (2 * d - 1) / 2 == d - 1;
  }

  /** Masking with a power of two minus one is the remainder modulo that power. */
  lemma {:induction false} BitAndMask(x: nat, c: nat)
    requires IsPow2(c)
    ensures BitAnd(x, c - 1) == x % c
  {
    if c == 1 {
      assert x % 1 == 0;
    } else if x > 0 {
      BitAndMask(x / 2, c / 2);
      BitAndOfOddMask(x, c / 2);
      HalvedRemainder(x, c / 2);
    } else {
      assert 0 % c == 0;
    }
  }

  lemma ProductOfNats(a: nat, b: nat)
    ensures a * b >= 0
  {
  }

  lemma NonzeroMultiple(d: int, c: nat)
    requires d != 0
    ensures d * c >= c || d * c + c <= 0
  {
    if d >= 1 {
      ProductOfNats(d - 1, c);
      assert d * c == (d - 1) * c + c;
    } else {
      ProductOfNats(-d - 1, c);
      assert d * c == -((-d - 1) * c) - c;
    }
  }

  lemma RemainderUnique(x: int, c: nat, q: int, r: nat)
    requires r < c && x == q * c + r
    ensures x % c == r && x / c == q
  {
    var q', r' := x / c, x % c;
    assert x == q' * c + r';
    assert (q - q') * c == q * c - q' * c;
    if q != q' {
      NonzeroMultiple(q - q', c);
      assert false;
    }
  }

  /** Multiples of `f` add and subtract to multiples of `f`. */
  lemma SumWhole(a: int, b: int, f: nat)
    requires f > 0 && a % f == 0 && b % f == 0
    ensures (a + b) % f == 0 && (a - b) % f == 0
  {
    var p, q := a / f, b / f;
    assert a == p * f && b == q * f;
    assert a + b == (p + q) * f && a - b == (p - q) * f;
    RemainderUnique(a + b, f, p + q, 0);
    RemainderUnique(a - b, f, p - q, 0);
  }

  /** Distinct multiples of `f` are at least `f` apart. */
  lemma MultiplesApart(a: nat, b: nat, f: nat)
    requires f > 0 && a % f == 0 && b % f == 0 && a < b
    ensures a + f <= b && (b - a) % f == 0
  {
    SumWhole(b, a, f);
    if b - a < f {
      RemainderUnique(b - a, f, 0, b - a);
    }
  }

  lemma {:induction false} Pow2Gap(a: nat, b: nat)
    requires IsPow2(a) && IsPow2(b) && a < b
    ensures 2 * a <= b
  {
    if a > 1 {
      Pow2Gap(a / 2, b / 2);
    }
  }

  lemma HalfTimes(a: nat, b: nat)
    requires a % 2 == 0
    ensures a * b == 2 * ((a / 2) * b)
  {
    var h := a / 2;
    assert a == 2 * h;
    assert (2 * h) * b == 2 * (h * b);
  }

  lemma Pow2Doubles(m: nat)
    requires IsPow2(m)
    ensures IsPow2(2 * m)
  {
    assert (2 * m) % 2 == 0 && (2 * m) / 2 == m;
  }

  lemma {:induction false} Pow2Product(a: nat, b: nat)
    requires IsPow2(a) && IsPow2(b)
    ensures IsPow2(a * b)
  {
    if a == 1 {
      assert a * b == b;
    } else {
      Pow2Product(a / 2, b);
      HalfTimes(a, b);
      Pow2Doubles((a / 2) * b);
    }
  }

  lemma OddFactor(q: nat, f: nat)
    requires f % 2 == 1 && (q * f) % 2 == 0
    ensures q % 2 == 0 && q * f == 2 * ((q / 2) * f)
  {
    var h := f / 2;
    assert q * f == 2 * (q * h) + q;
    assert q == 2 * (q / 2);
  }

  lemma {:induction false} OddDivisor(c: nat, f: nat)
    requires IsPow2(c) && f % 2 == 1 && f > 1
    ensures c % f != 0
  {
    if c == 1 {
      RemainderUnique(1, f, 0, 1);
    } else {
      OddDivisor(c / 2, f);
      if c % f == 0 {
        OddFactor(c / f, f);
        RemainderUnique(c / 2, f, (c / f) / 2, 0);
      }
    }
  }

  /** The divisors of a power of two are the powers of two up to it. */
  lemma {:induction false} Pow2Divisors(c: nat, f: nat)
    requires IsPow2(c) && 0 < f <= c
    ensures c % f == 0 <==> IsPow2(f)
  {
    if f == 1 {
      assert c % 1 == 0;
    } else if f % 2 == 1 {
      OddDivisor(c, f);
    } else {
      Pow2Divisors(c / 2, f / 2);
      HalvedRemainder(c, f / 2);
    }
  }

  /** The least power of two not below `n`. */
  lemma {:induction false} Pow2Above(n: nat) returns (c: nat)
    requires 0 < n
    ensures IsPow2(c) && n <= c < 2 * n
  {
    if n == 1 {
      c := 1;
    } else {
      c := Pow2Above((n + 1) / 2);
      c := 2 * c;
      if c >= 2 * n {
        // (n + 1) / 2 <= c / 2 < n + 1, so c / 2 is n and halves again
        c := n;
      }
    }
  }

  lemma MaxCapacityIsPow2()
    ensures IsPow2(MAX_CAPACITY)
  {
    assert IsPow2(2) && IsPow2(4) && IsPow2(8) && IsPow2(16) && IsPow2(32) && IsPow2(64) && IsPow2(128);
    assert IsPow2(256);
    Pow2Product(256, 256);
    Pow2Product(0x1_0000, 0x1_0000);
    Pow2Product(0x1_0000_0000, 0x1_0000);
    Pow2Product(0x1_0000_0000_0000, 128);
    Pow2Product(0x80_0000_0000_0000, 256);
  }

  /** Doubling a power of two that is below some bound of at most 2^63 stays at most 2^63. */
  lemma DoublingFits(a: nat, bound: nat)
    requires IsPow2(a) && a < bound <= MAX_CAPACITY
    ensures IsPow2(2 * a) && 2 * a <= MAX_CAPACITY
  {
    MaxCapacityIsPow2();
    Pow2Gap(a, MAX_CAPACITY);
  }
}
