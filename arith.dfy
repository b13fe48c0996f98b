/** Integer facts shared by the byte-level codecs: powers of two and of 256, and the
    division identities the shift-based C++ code relies on. */
module Arith {

  /** `uint8_t`. */
  type Byte = b: int | 0 <= b < 256

  function Pow2(k: nat): (r: nat)
    ensures r >= 1
  {
    if k == 0 then 1 else 2 * Pow2(k - 1)
  }

  function Pow256(k: nat): (r: nat)
    ensures r >= 1
  {
    if k == 0 then 1 else 256 * Pow256(k - 1)
  }

  const TWO32: nat := 0x1_0000_0000
  const TWO63: nat := 0x8000_0000_0000_0000
  const TWO64: nat := 0x1_0000_0000_0000_0000

  lemma {:induction false} Pow2Add(a: nat, b: nat)
    ensures Pow2(a + b) == Pow2(a) * Pow2(b)
    decreases a
  {
    if a > 0 {
      Pow2Add(a - 1, b);
      assert Pow2(a + b) == 2 * Pow2(a - 1 + b);
    }
  }

  lemma {:induction false} Pow2Monotone(a: nat, b: nat)
    requires a <= b
    ensures Pow2(a) <= Pow2(b)
    decreases b
  {
    if a < b {
      Pow2Monotone(a, b - 1);
    }
  }

  lemma Pow2Values()
    ensures Pow2(7) == 128 && Pow2(8) == 256
    ensures Pow2(32) == TWO32 && Pow2(63) == TWO63 && Pow2(64) == TWO64
  {
    Pow2Small();
    Pow2Add(16, 15);
    Pow2Add(16, 16);
    assert Pow2(31) == 0x8000_0000 && Pow2(32) == TWO32;
    Pow2Add(32, 31);
    Pow2Add(32, 32);
  }

  lemma Pow2Small()
    ensures Pow2(7) == 128 && Pow2(8) == 256 && Pow2(15) == 0x8000 && Pow2(16) == 0x1_0000
  {
    assert Pow2(7) == 128;
    assert Pow2(8) == 256;
    Pow2Add(8, 7);
    Pow2Add(8, 8);
  }

  lemma {:induction false} Pow256IsPow2(k: nat)
    ensures Pow256(k) == Pow2(8 * k)
    decreases k
  {
    if k > 0 {
      Pow256IsPow2(k - 1);
      Pow2Add(8, 8 * (k - 1));
      Pow2Values();
    }
  }

  lemma Pow256Values()
    ensures Pow256(1) == 256 && Pow256(2) == 0x1_0000
    ensures Pow256(4) == TWO32 && Pow256(8) == TWO64
  {
    Pow256IsPow2(4);
    Pow256IsPow2(8);
    Pow2Values();
  }

  /** The quotient and remainder are determined by `n == q * d + r` with `0 <= r < d`. */
  lemma DivModUnique(n: int, d: int, q: int, r: int)
    requires d > 0 && 0 <= r < d && n == q * d + r
    ensures n / d == q && n % d == r
  {
    var k := q - n / d;
    assert k * d == n % d - r by {
      assert n == (n / d) * d + n % d;
    }
  }

  lemma ModOfSmall(x: int, d: int)
    requires 0 <= x < d
    ensures x % d == x && x / d == 0
  {
    DivModUnique(x, d, 0, x);
  }

  /** Dividing twice is dividing by the product. */
  lemma DivDiv(n: nat, a: nat, b: nat)
    requires a > 0 && b > 0
    ensures n / a / b == n / (a * b)
  {
    var q1 := n / a;
    var r1 := n % a;
    var q2 := q1 / b;
    var r2 := q1 % b;
    assert n == q1 * a + r1;
    assert q1 == q2 * b + r2;
    assert n == q2 * (a * b) + (r2 * a + r1) by {
      assert n == (q2 * b + r2) * a + r1;
    }
    assert r2 * a <= (b - 1) * a by { MulLe(r2, b - 1, a); }
    assert (b - 1) * a == a * b - a;
    DivModUnique(n, a * b, q2, r2 * a + r1);
  }

  lemma MulLe(x: int, y: int, c: int)
    requires x <= y && c >= 0
    ensures x * c <= y * c
  {
    assert (y - x) * c >= 0;
  }

  /** Taking `n mod a*b` and then `mod a` is taking `mod a`. */
  lemma ModMod(n: nat, a: nat, b: nat)
    requires a > 0 && b > 0
    ensures n % (a * b) % a == n % a
  {
    var q := n / (a * b);
    var r := n % (a * b);
    assert n == q * (a * b) + r;
    assert n == (q * b) * a + r;
    var q' := r / a;
    var r' := r % a;
    assert r == q' * a + r';
    assert n == (q * b + q') * a + r';
    DivModUnique(n, a, q * b + q', r');
  }

  /** Adding a multiple of the divisor shifts the quotient and keeps the remainder. */
  lemma DivModAddMultiple(r: nat, q: nat, d: nat)
    requires d > 0 && r < d
    ensures (q * d + r) / d == q && (q * d + r) % d == r
  {
    DivModUnique(q * d + r, d, q, r);
  }
}
