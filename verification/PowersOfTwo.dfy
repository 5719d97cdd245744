/** Powers of two, and the few facts about them and about division that the other modules need. */
module PowersOfTwo {

  const TWO_32: nat := 0x1_0000_0000

  type u32 = x: int | 0 <= x < 0x1_0000_0000 witness 0

  function Pow2(k: nat): (p: nat)
    ensures p > 0
  {
    if k == 0 then 1 else 2 * Pow2(k - 1)
  }

  predicate IsPowerOfTwo(n: nat)
    decreases n
  {
    n == 1 || (n > 1 && n % 2 == 0 && IsPowerOfTwo(n / 2))
  }

  lemma {:induction false} PowerOfTwoExponent(n: nat) returns (k: nat)
    requires IsPowerOfTwo(n)
    ensures n == Pow2(k)
    decreases n
  {
    if n == 1 {
      k := 0;
    } else {
      var j := PowerOfTwoExponent(n / 2);
      k := j + 1;
    }
  }

  lemma {:induction false} Pow2IsPowerOfTwo(k: nat)
    ensures IsPowerOfTwo(Pow2(k))
  {
    if k > 0 { Pow2IsPowerOfTwo(k - 1); }
  }

  lemma {:induction false} Pow2Add(a: nat, b: nat)
    ensures Pow2(a + b) == Pow2(a) * Pow2(b)
  {
    if a > 0 {
      Pow2Add(a - 1, b);
      calc {
        Pow2(a + b);
        2 * Pow2(a - 1 + b);
        2 * (Pow2(a - 1) * Pow2(b));
        Pow2(a) * Pow2(b);
      }
    }
  }

  lemma {:induction false} Pow2Increases(a: nat, b: nat)
    requires a < b
    ensures Pow2(a) < Pow2(b)
  {
    if a + 1 < b { Pow2Increases(a, b - 1); }
  }

  lemma Pow2_32()
    ensures Pow2(32) == TWO_32
  {
    assert Pow2(8) == 256;
    Pow2Add(8, 8);
    Pow2Add(16, 16);
  }

  lemma MulMonotone(n: nat, a: int, b: int)
    requires a <= b
    ensures n * a <= n * b
  {
  }

  lemma SmallMultiple(n: nat, z: int)
    requires 0 - n < n * z < n
    ensures z == 0
  {
    MulMonotone(n, 1, if z >= 1 then z else 1);
    MulMonotone(n, if z <= -1 then z else -1, -1);
  }

  lemma ModOfMultiple(a: int, y: nat, n: nat, q: int)
    requires n > 0 && y < n && a == y + n * q
    ensures a % n == y
  {
    var d, r := a / n, a % n;
    assert a == n * d + r;
    assert n * (d - q) == n * d - n * q == y - r;
    SmallMultiple(n, d - q);
  }

  lemma DivideTwice(a: nat, b: nat, c: nat)
    requires b > 0 && c > 0
    ensures b * c > 0 && a / b / c == a / (b * c)
  {
    var q, r := a / b, a % b;
    var q', r' := q / c, q % c;
    assert a == b * q + r && q == c * q' + r';
    assert b * q == b * (c * q') + b * r' && b * (c * q') == (b * c) * q';
    MulMonotone(b, r' + 1, c);
    assert b * (r' + 1) == b * r' + b;
    QuotientIs(a, b * c, q', b * r' + r);
  }

  lemma QuotientIs(a: nat, m: nat, q: nat, r: nat)
    requires m > 0 && a == m * q + r && r < m
    ensures a / m == q
  {
    var q', r' := a / m, a % m;
    assert a == m * q' + r';
    assert m * (q - q') == m * q - m * q' == r' - r;
    SmallMultiple(m, q - q');
  }
}
