/**
 * Fixed-width unsigned integers as bounded mathematical integers, powers of two,
 * and the 32-bit big-endian byte layout (`u32::to_be_bytes`).
 */
module Ints {

  type byte = x: int | 0 <= x < 0x100
  type u16 = x: int | 0 <= x < 0x1_0000

  /** One more than the largest `u32`. */
  const U32_LIMIT: nat := 0x1_0000_0000

  function Pow2(n: nat): (r: nat)
    ensures r >= 1
  {
    if n == 0 then 1 else 2 * Pow2(n - 1)
  }

  lemma {:induction false} Pow2Add(a: nat, b: nat)
    ensures Pow2(a + b) == Pow2(a) * Pow2(b)
  {
    if b > 0 {
      Pow2Add(a, b - 1);
      assert Pow2(a + b) == 2 * Pow2(a + b - 1);
      assert Pow2(a) * Pow2(b) == Pow2(a) * (2 * Pow2(b - 1));
    }
  }

  lemma {:induction false} Pow2Monotone(a: nat, b: nat)
    requires a <= b
    ensures Pow2(a) <= Pow2(b)
  {
    if a < b {
      Pow2Monotone(a, b - 1);
    }
  }

  lemma Pow2Values()
    ensures Pow2(8) == 0x100 && Pow2(16) == 0x1_0000 && Pow2(23) == 0x80_0000
  {
    assert Pow2(4) == 16;
    assert Pow2(8) == 0x100;
    assert Pow2(16) == Pow2(8) * Pow2(8) by { Pow2Add(8, 8); }
    assert Pow2(23) == Pow2(16) * Pow2(7) by { Pow2Add(16, 7); }
  }

  /** Stated for the solver, which does not derive it unaided inside nonlinear terms. */
  lemma MulNonNegative(a: nat, b: nat)
    ensures a * b >= 0
  {
  }

  lemma DivMod8(q: nat, r: nat)
    requires r < 8
    ensures (8 * q + r) / 8 == q && (8 * q + r) % 8 == r
  {
  }

  lemma DivMod16(q: nat, r: nat)
    requires r < 0x1_0000
    ensures (0x1_0000 * q + r) / 0x1_0000 == q && (0x1_0000 * q + r) % 0x1_0000 == r
  {
  }

  /** Stated for the solver, which does not reorder nonlinear products unaided. */
  lemma MulCommutes(a: nat, b: nat)
    ensures a * b == b * a
  {
  }

  /** Rounding up to whole bytes, written the two usual ways. */
  lemma CeilDiv8(p: nat)
    ensures (if p % 8 == 0 then p / 8 else p / 8 + 1) == (p + 7) / 8
  {
  }

  lemma CeilDiv8Bounds(p: nat)
    ensures 8 * ((p + 7) / 8) - 8 < p <= 8 * ((p + 7) / 8)
  {
  }

  lemma ModSmall(x: nat, m: nat)
    requires x < m
    ensures x % m == x
  {
  }

  /** The four bytes of `x.to_be_bytes()` for a `u32` x, most significant first. */
  function BigEndian32(x: nat): (r: seq<byte>)
    requires x < U32_LIMIT
    ensures |r| == 4 && FromBigEndian32(r) == x
  {
    var q1 := x / 0x100;
    var q2 := q1 / 0x100;
    var q3 := q2 / 0x100;
    [q3, q2 % 0x100, q1 % 0x100, x % 0x100]
  }

  /** The `u32` whose big-endian bytes are `b`. */
  function FromBigEndian32(b: seq<byte>): (r: nat)
    requires |b| == 4
    ensures r < U32_LIMIT
  {
    (b[0] as int) * 0x100_0000 + (b[1] as int) * 0x1_0000 + (b[2] as int) * 0x100 + b[3]
  }
}
