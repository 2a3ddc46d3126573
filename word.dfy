/**
 * 64-bit machine integers: the signed `int64_t` of the syntax tree, the unsigned bit
 * patterns LLVM's `i64` operations act on, and the conversions between them.
 */
module Word {

  const Modulus: int := 0x1_0000_0000_0000_0000
  const Half: int := 0x8000_0000_0000_0000

  /** A 64-bit two's-complement integer. */
  newtype Int64 = x: int | -0x8000_0000_0000_0000 <= x < 0x8000_0000_0000_0000

  /** A 64-bit pattern read as an unsigned number. */
  type Bits = x: int | 0 <= x < 0x1_0000_0000_0000_0000

  /** The bit pattern of a signed integer. */
  function Unsigned(x: Int64): Bits {
    if x < 0 then x as int + Modulus else x as int
  }

  /** The signed integer a bit pattern denotes. */
  function Signed(u: Bits): Int64 {
    if u >= Half then (u - Modulus) as Int64 else u as Int64
  }

  lemma SignedUnsigned(x: Int64)
    ensures Signed(Unsigned(x)) == x
  {
  }

  lemma UnsignedSigned(u: Bits)
    ensures Unsigned(Signed(u)) == u
  {
  }

  /** The bit pattern congruent to `x` modulo 2^64 (two's-complement wrap-around). */
  function Truncate(x: int): Bits {
    x % Modulus
  }

  /** The signed value `x` wraps to in 64 bits. */
  function Wrap(x: int): (r: Int64)
    ensures -Half <= x < Half ==> r as int == x
  {
    if -Half <= x < Half then
      assert Truncate(x) == if x < 0 then x + Modulus else x;
      Signed(Truncate(x))
    else Signed(Truncate(x))
  }

  function And(a: Bits, b: Bits): Bits {
    ((a as bv64) & (b as bv64)) as int
  }

  function Or(a: Bits, b: Bits): Bits {
    ((a as bv64) | (b as bv64)) as int
  }

  function Xor(a: Bits, b: Bits): Bits {
    ((a as bv64) ^ (b as bv64)) as int
  }

  function Pow2(n: nat): (r: nat)
    ensures 1 <= r
  {
    if n == 0 then 1 else 2 * Pow2(n - 1)
  }

  /** Signed division rounding toward zero, as C and LLVM's `sdiv` do. */
  function TruncDiv(a: int, b: int): int
    requires b != 0
  {
    var q := Abs(a) / Abs(b);
    if (a < 0) == (b < 0) then q else -q
  }

  /** The remainder that goes with `TruncDiv`: it takes the sign of the dividend. */
  function TruncRem(a: int, b: int): int
    requires b != 0
  {
    a - TruncDiv(a, b) * b
  }

  function Abs(a: int): nat {
    if a < 0 then -a else a
  }

  /** Truncating division: the quotient rounds toward zero and the remainder is smaller than the divisor. */
  lemma TruncDivProperties(a: int, b: int)
    requires b != 0
    ensures TruncDiv(a, b) * b + TruncRem(a, b) == a
    ensures Abs(TruncRem(a, b)) < Abs(b)
    ensures TruncRem(a, b) == 0 || (TruncRem(a, b) < 0 <==> a < 0)
  {
    var q := Abs(a) / Abs(b);
    var r := Abs(a) % Abs(b);
    assert Abs(a) == q * Abs(b) + r;
    SignedProduct(a, b, q);
  }

  /** The truncated quotient times the divisor has the dividend's sign and `q * |b|` as its size. */
  lemma SignedProduct(a: int, b: int, q: nat)
    requires b != 0 && q == Abs(a) / Abs(b)
    ensures TruncDiv(a, b) * b == if a < 0 then -(q * Abs(b)) else q * Abs(b)
  {
    var c: int := Abs(b);
    var n: int := q;
    var p := n * c;
    assert (-n) * c == -p && n * (-c) == -p && (-n) * (-c) == p;
    if b < 0 {
      assert b == -c;
    } else {
      assert b == c;
    }
  }

  /** Dividing two 64-bit integers overflows only for the minimum divided by -1. */
  lemma TruncDivInRange(a: Int64, b: Int64)
    requires b != 0 && !(a as int == -Half && b == -1)
    ensures -Half <= TruncDiv(a as int, b as int) < Half
    ensures -Half <= TruncRem(a as int, b as int) < Half
  {
    var q := Abs(a as int) / Abs(b as int);
    DivAtMost(Abs(a as int), Abs(b as int));
    if Abs(b as int) >= 2 {
      DivHalves(Abs(a as int), Abs(b as int));
    }
    TruncDivProperties(a as int, b as int);
  }

  lemma DivAtMost(x: nat, y: nat)
    requires 1 <= y
    ensures x / y <= x
  {
    var q := x / y;
    assert x == q * y + x % y;
    MultiplyAtLeast(q, y, 1);
  }

  lemma DivHalves(x: nat, y: nat)
    requires 2 <= y
    ensures x / y <= x / 2
  {
    var q := x / y;
    assert x == q * y + x % y;
    MultiplyAtLeast(q, y, 2);
    assert q * 2 <= x;
  }

  /** Multiplying by at least `k` gives at least `k` times as much. */
  lemma {:induction false} MultiplyAtLeast(q: nat, y: nat, k: nat)
    requires k <= y
    ensures q * k <= q * y
    decreases y - k
  {
    if k < y {
      MultiplyAtLeast(q, y, k + 1);
      assert q * (k + 1) == q * k + q;
    }
  }

  /**
   * A bit pattern shifted down by `n` places, one halving per place: the `n` low bits drop
   * off and zeros come in at the top.
   */
  function ShiftDown(x: Bits, n: nat): (r: Bits)
    ensures r <= x
    ensures n >= 1 ==> r <= x / 2
  {
    if n == 0 then x else ShiftDown(x / 2, n - 1)
  }

  /** Shifting down by `n` places is division by 2 to the `n`. */
  lemma {:induction false} ShiftDownDivides(x: Bits, n: nat)
    ensures ShiftDown(x, n) == x / Pow2(n)
  {
    if n > 0 {
      ShiftDownDivides(x / 2, n - 1);
      DivideTwice(x, 2, Pow2(n - 1));
    }
  }

  /** Dividing by `a` and then by `b` is dividing by `a * b`. */
  lemma DivideTwice(x: nat, a: nat, b: nat)
    requires 1 <= a && 1 <= b
    ensures x / a / b == x / (a * b)
  {
    var q, r := x / a, x % a;
    var q2, r2 := q / b, q % b;
    assert x == q * a + r;
    assert q == q2 * b + r2;
    var ab := a * b;
    var rest := r2 * a + r;
    Regroup(q, q2, b, r2, a, r);
    assert x == q2 * ab + rest;
    RemainderBound(a, b, r2, r);
    DivisionUnique(x, ab, q2, rest);
  }

  lemma Regroup(q: nat, q2: nat, b: nat, r2: nat, a: nat, r: nat)
    requires q == q2 * b + r2
    ensures q * a + r == q2 * (a * b) + (r2 * a + r)
  {
    assert (q2 * b + r2) * a == q2 * b * a + r2 * a;
  }

  lemma RemainderBound(a: nat, b: nat, r2: nat, r: nat)
    requires r2 < b && r < a
    ensures r2 * a + r < a * b
  {
    MultiplyAtLeast(a, b - 1, r2);
    assert a * (b - 1) == a * b - a;
  }

  /** The quotient and remainder of a division are the only such pair. */
  lemma DivisionUnique(x: nat, d: nat, q: nat, r: nat)
    requires 1 <= d && x == q * d + r && r < d
    ensures x / d == q
  {
    var q0, r0 := x / d, x % d;
    assert x == q0 * d + r0;
    if q0 < q {
      MultiplyAtLeast(d, q, q0 + 1);
    } else if q0 > q {
      MultiplyAtLeast(d, q0, q + 1);
    }
  }
}
