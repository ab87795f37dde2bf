/**
 * Fixed-width integers and the little-endian layouts every wire format here uses.
 * Bit operations on CAN identifiers are written with division and remainder:
 * `x & (2^k - 1)` is `x % 2^k`, and a single-bit flag `f` is set in `x` when
 * `(x / f) % 2 == 1`.
 */
module Bytes {
  type byte = x: int | 0 <= x < 0x100
  type u16 = x: int | 0 <= x < 0x1_0000
  type u32 = x: int | 0 <= x < 0x1_0000_0000
  type u64 = x: int | 0 <= x < 0x1_0000_0000_0000_0000

  const U32_MAX: u32 := 0xFFFF_FFFF
  const TWO_32: int := 0x1_0000_0000
  const TWO_64: int := 0x1_0000_0000_0000_0000

  /** `x.to_le_bytes()` for a u16. */
  function Le16(x: u16): (r: seq<byte>)
    ensures |r| == 2 && r[0] as int + 256 * r[1] as int == x
  {
    [x % 256, x / 256]
  }

  /** `x.to_le_bytes()` for a u32. */
  function Le32(x: u32): (r: seq<byte>)
    ensures |r| == 4
  {
    [x % 0x100, (x / 0x100) % 0x100, (x / 0x1_0000) % 0x100, x / 0x100_0000]
  }

  /** `u32::from_le_bytes(b[off..off + 4])`. */
  function ReadLe32(b: seq<byte>, off: nat): (x: u32)
    requires off + 4 <= |b|
  {
    b[off] as int + 0x100 * b[off + 1] as int + 0x1_0000 * b[off + 2] as int + 0x100_0000 * b[off + 3] as int
  }

  /** Decoding an encoded u32 gives it back, wherever the four bytes sit. */
  lemma ReadLe32OfLe32(b: seq<byte>, off: nat, x: u32)
    requires off + 4 <= |b| && b[off..off + 4] == Le32(x)
    ensures ReadLe32(b, off) == x
  {
    assert b[off] == Le32(x)[0] && b[off + 1] == Le32(x)[1];
    assert b[off + 2] == Le32(x)[2] && b[off + 3] == Le32(x)[3];
    Le32Sum(x);
  }

  /** The four bytes of `Le32(x)`, weighted by their place, add up to `x`. */
  lemma Le32Sum(x: u32)
    ensures ReadLe32(Le32(x), 0) == x
  {
    var q1 := x / 0x100;
    var q2 := q1 / 0x100;
    var q3 := q2 / 0x100;
    assert x == q1 * 0x100 + x % 0x100;
    assert q1 == q2 * 0x100 + q1 % 0x100;
    assert q2 == q3 * 0x100 + q2 % 0x100;
    DivModUnique(x, 0x1_0000, q2, x % 0x100 + 0x100 * (q1 % 0x100));
    DivModUnique(x, 0x100_0000, q3, x % 0x100 + 0x100 * (q1 % 0x100) + 0x1_0000 * (q2 % 0x100));
  }

  /** Encoding is injective: the four bytes are determined by the value and back. */
  lemma Le32OfReadLe32(b: seq<byte>, off: nat)
    requires off + 4 <= |b|
    ensures Le32(ReadLe32(b, off)) == b[off..off + 4]
  {
    var b0, b1, b2, b3 := b[off] as int, b[off + 1] as int, b[off + 2] as int, b[off + 3] as int;
    var x := ReadLe32(b, off);
    DivModUnique(x, 0x100, b1 + 0x100 * b2 + 0x1_0000 * b3, b0);
    DivModUnique(x, 0x1_0000, b2 + 0x100 * b3, b0 + 0x100 * b1);
    DivModUnique(x, 0x100_0000, b3, b0 + 0x100 * b1 + 0x1_0000 * b2);
    DivModUnique(b1 + 0x100 * b2 + 0x1_0000 * b3, 0x100, b2 + 0x100 * b3, b1);
    DivModUnique(b2 + 0x100 * b3, 0x100, b3, b2);
  }

  /** Division is determined by any quotient and in-range remainder that rebuild `x`. */
  lemma DivModUnique(x: int, d: int, q: int, r: int)
    requires d > 0 && 0 <= r < d && x == q * d + r
    ensures x / d == q && x % d == r
  {
    var q', r' := x / d, x % d;
    assert (q - q') * d == r' - r;
    if q > q' {
      MulAtLeast(q - q', d);
    } else if q < q' {
      MulAtLeast(q' - q, d);
    }
  }

  lemma MulAtLeast(a: int, d: int)
    requires a >= 1 && d > 0
    ensures a * d >= d
  {
    assert a * d == (a - 1) * d + d;
  }

  /** A single-bit `flag` is set in `x` (`x & flag != 0`). */
  predicate HasFlag(x: int, flag: int)
    requires flag > 0
  {
    (x / flag) % 2 == 1
  }

  /** 2 to the power `k`. */
  function Pow2(k: nat): (r: nat)
    ensures r >= 1
  {
    if k == 0 then 1 else 2 * Pow2(k - 1)
  }

  /** Powers of two multiply by adding their exponents. */
  lemma {:induction false} Pow2Add(a: nat, b: nat)
    ensures Pow2(a + b) == Pow2(a) * Pow2(b)
  {
    if a > 0 {
      Pow2Add(a - 1, b);
      assert Pow2(a + b) == 2 * Pow2(a - 1 + b);
    }
  }

  /** Every power of two above the first is even. */
  lemma Pow2Even(n: nat)
    requires n > 0
    ensures Pow2(n) % 2 == 0 && Pow2(n) >= 2
  {
    DivModUnique(Pow2(n), 2, Pow2(n - 1), 0);
  }

  /** Dividing by a lower power of two leaves the power of the difference. */
  lemma Pow2DivLower(k: nat, j: nat)
    requires j <= k
    ensures Pow2(k) / Pow2(j) == Pow2(k - j)
  {
    Pow2Add(j, k - j);
    DivModUnique(Pow2(k), Pow2(j), Pow2(k - j), 0);
  }

  /** A lower power of two is below a higher one, so dividing by the higher gives 0. */
  lemma Pow2DivHigher(k: nat, j: nat)
    requires k < j
    ensures Pow2(k) / Pow2(j) == 0
  {
    var x, q := Pow2(k), Pow2(j - k);
    Pow2Add(k, j - k);
    Pow2Even(j - k);
    MulAtLeast(q, x);
    assert x * q >= 2 * x by { MulMono(x, 2, q); }
    DivModUnique(x, Pow2(j), 0, x);
  }

  lemma MulMono(x: nat, a: nat, b: nat)
    requires a <= b
    ensures x * a <= x * b
  {
  }

  /**
   * Testing bit `j` of the single bit `k` finds it set exactly when `j == k`, so flags that
   * are distinct powers of two never show up in one another.
   */
  lemma Pow2Bit(k: nat, j: nat)
    ensures HasFlag(Pow2(k), Pow2(j)) <==> j == k
  {
    if j <= k {
      Pow2DivLower(k, j);
      if k > j {
        Pow2Even(k - j);
      }
    } else {
      Pow2DivHigher(k, j);
    }
  }

  /** A flag value is a single bit: a power of two. */
  predicate SingleBit(flag: int)
  {
    exists k: nat | k < 32 :: flag == Pow2(k)
  }
  /** Consecutive little-endian u32s, as a fixed layout of u32 fields is written. */
  function Le32s(xs: seq<u32>): (r: seq<byte>)
    ensures |r| == 4 * |xs|
  {
    if xs == [] then [] else Le32(xs[0]) + Le32s(xs[1..])
  }

  /** `n` consecutive little-endian u32s read from `off` on. */
  function ReadLe32s(b: seq<byte>, off: nat, n: nat): (xs: seq<u32>)
    requires off + 4 * n <= |b|
    ensures |xs| == n
    decreases n
  {
    if n == 0 then [] else [ReadLe32(b, off)] + ReadLe32s(b, off + 4, n - 1)
  }

  /** Reading back a written run of u32s gives the values, wherever the run sits. */
  lemma {:induction false} ReadLe32sOfLe32s(xs: seq<u32>, b: seq<byte>, off: nat)
    requires off + 4 * |xs| <= |b| && b[off..off + 4 * |xs|] == Le32s(xs)
    ensures ReadLe32s(b, off, |xs|) == xs
    decreases |xs|
  {
    if xs != [] {
      var w := b[off..off + 4 * |xs|];
      assert b[off..off + 4] == w[..4] == Le32(xs[0]);
      ReadLe32OfLe32(b, off, xs[0]);
      assert b[off + 4..off + 4 * |xs|] == w[4..] == Le32s(xs[1..]);
      ReadLe32sOfLe32s(xs[1..], b, off + 4);
    }
  }

  /** Writing back a read run of u32s gives the bytes it was read from. */
  lemma {:induction false} Le32sOfReadLe32s(b: seq<byte>, off: nat, n: nat)
    requires off + 4 * n <= |b|
    ensures Le32s(ReadLe32s(b, off, n)) == b[off..off + 4 * n]
    decreases n
  {
    if n > 0 {
      var xs := ReadLe32s(b, off, n);
      assert xs[0] == ReadLe32(b, off);
      assert xs[1..] == ReadLe32s(b, off + 4, n - 1);
      Le32OfReadLe32(b, off);
      Le32sOfReadLe32s(b, off + 4, n - 1);
      assert b[off..off + 4 * n] == b[off..off + 4] + b[off + 4..off + 4 * n];
    }
  }

  // ---------------------------------------------------------------- sequence facts

  lemma DropAppend<T>(a: seq<T>, b: seq<T>, n: nat)
    requires n <= |a|
    ensures (a + b)[n..] == a[n..] + b
  {
  }

  lemma DropDrop<T>(a: seq<T>, n: nat, m: nat)
    requires n + m <= |a|
    ensures a[n..][m..] == a[n + m..] && a[0..] == a
  {
  }

  lemma AppendAssoc<T>(x: seq<T>, y: seq<T>, z: seq<T>)
    ensures x + (y + z) == (x + y) + z
  {
  }
}
