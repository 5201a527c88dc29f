/** Powers of two and the arithmetic of a 32-bit `size_t`. */
module Words {

  const WORD: nat := 0x1_0000_0000

  function Pow2(n: nat): (r: nat)
    ensures r > 0
  {
    if n == 0 then 1 else 2 * Pow2(n - 1)
  }

  lemma {:induction false} Pow2Add(a: nat, b: nat)
    ensures Pow2(a + b) == Pow2(a) * Pow2(b)
  {
    if a == 0 {
    } else {
      Pow2Add(a - 1, b);
      assert 2 * Pow2(a - 1) * Pow2(b) == 2 * (Pow2(a - 1) * Pow2(b));
    }
  }

  lemma {:induction false} Pow2Monotone(a: nat, b: nat)
    requires a <= b
    ensures Pow2(a) <= Pow2(b)
    decreases b
  {
    if a < b {
      Pow2Monotone(a, b - 1);
    }
  }

  lemma Pow2_32()
    ensures Pow2(8) == 0x100 && Pow2(16) == 0x1_0000 && Pow2(31) == 0x8000_0000 && Pow2(32) == WORD
  {
    assert Pow2(8) == 0x100;
    Pow2Add(8, 8);
    Pow2Add(16, 16);
  }

  /** Unsigned 32-bit subtraction, as `size_t` arithmetic wraps. */
  function Sub32(a: nat, b: nat): (r: nat)
    requires a < WORD && b < WORD
    ensures r < WORD
    ensures b <= a ==> r == a - b
    ensures a < b ==> r == WORD - (b - a)
  {
    (a + WORD - b) % WORD
  }

  /** The value a 32-bit unsigned computation leaves. */
  function Wrap32(x: int): (r: nat)
    ensures r < WORD
    ensures 0 <= x < WORD ==> r == x
  {
    x % WORD
  }

  type Modulus = m: nat | m > 0 witness 1

  /** The same for a machine whose words count up to m. */
  function WrapAt(m: Modulus, x: int): (r: nat)
    ensures r < m
    ensures 0 <= x < m ==> r == x
  {
    x % m
  }

  lemma MulMonotone(a: nat, b: nat, h: nat)
    requires a <= b
    ensures a * h <= b * h
  {
  }

  /** Quotient and remainder are unique. */
  lemma DivMod(x: nat, a: nat, q: nat, r: nat)
    requires a > 0 && x == q * a + r && r < a
    ensures x / a == q && x % a == r
  {
    var d := x / a;
    assert d * a <= x < d * a + a;
    if d < q {
      MulMonotone(d + 1, q, a);
    } else if d > q {
      MulMonotone(q + 1, d, a);
    }
  }

  lemma Quotient(x: nat, a: nat) returns (q: nat, r: nat)
    requires a > 0
    ensures x == q * a + r && r < a && q == x / a && r == x % a
  {
    q, r := x / a, x % a;
  }
}
