/** 64-bit integers with an overflow flag. */
module IntOps {

  const MAX_U64: nat := 0xFFFF_FFFF_FFFF_FFFF

  type u64 = x: int | 0 <= x <= 0xFFFF_FFFF_FFFF_FFFF witness 0

  datatype IntOp = IntOp(overflow: bool, value: u64)

  /** Overflow is recognised from the wrapped sum. */
  function Plus(a: IntOp, b: IntOp): IntOp {
    if a.overflow || b.overflow then IntOp(true, 1)
    else
      var c := (a.value + b.value) % 0x1_0000_0000_0000_0000;
      IntOp(c < a.value && c < b.value, c)
  }

  /** Overflow is recognised by division, before multiplying. */
  function Times(a: IntOp, b: IntOp): IntOp {
    if a.overflow || b.overflow || (a.value != 0 && b.value > MAX_U64 / a.value) || (b.value != 0 && a.value > MAX_U64 / b.value)
    then IntOp(true, 1)
    else IntOp(false, (a.value * b.value) % 0x1_0000_0000_0000_0000)
  }

  /** x holds the number n: exactly if it fits, else flagged. */
  predicate Holds(x: IntOp, n: nat) {
    if n <= MAX_U64 then x == IntOp(false, n) else x.overflow
  }

  lemma PlusIsExact(a: IntOp, b: IntOp)
    requires !a.overflow && !b.overflow
    ensures Holds(Plus(a, b), a.value + b.value)
  {
    var s := a.value + b.value;
    if s > MAX_U64 {
      assert s % 0x1_0000_0000_0000_0000 == s - 0x1_0000_0000_0000_0000;
    }
  }

  lemma QuotientBound(a: nat, b: nat, m: nat)
    requires a > 0
    ensures b > m / a <==> a * b > m
  {
    var q, r := m / a, m % a;
    assert m == a * q + r;
    if b > q {
      Grows(a, q + 1, b);
      assert a * (q + 1) == a * q + a;
    } else {
      Grows(a, b, q);
    }
  }

  lemma QuotientFits(a: nat, b: nat)
    requires b > 0
    ensures 0 <= a / b <= a
  {
    var q, r := a / b, a % b;
    assert a == b * q + r;
    if q > 0 { Grows(q, 1, b); }
  }

  lemma Grows(a: nat, x: nat, y: nat)
    requires x <= y
    ensures a * x <= a * y
  {
  }

  lemma TimesIsExact(a: IntOp, b: IntOp)
    requires !a.overflow && !b.overflow
    ensures Holds(Times(a, b), a.value * b.value)
  {
    if a.value != 0 { QuotientBound(a.value, b.value, MAX_U64); }
    if b.value != 0 { QuotientBound(b.value, a.value, MAX_U64); }
    assert a.value * b.value == b.value * a.value;
    if a.value == 0 || b.value == 0 { assert a.value * b.value == 0; }
  }
}
