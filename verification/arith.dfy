/** Rust's numeric casts, and the integer and real arithmetic facts the
    wheel proofs rest on. */
module Arith {

  /** Rust's `f64 as u8`: truncated value, saturated into 0..255. */
  function SatU8(x: int): nat {
    if x < 0 then 0 else if x > 255 then 255 else x
  }

  /** Rust's `f64 as usize` for values far below the type's maximum. */
  function SatUsize(x: int): nat {
    if x < 0 then 0 else x
  }

  function Min(a: int, b: int): int {
    if a < b then a else b
  }

  /** Rust's `i32 as i16`: the low 16 bits, read as two's complement. */
  function WrapI16(x: int): (r: int)
    ensures -32768 <= r < 32768
    ensures (r - x) % 65536 == 0
    ensures -32768 <= x < 32768 ==> r == x
  {
    (x + 32768) % 65536 - 32768
  }

  lemma MulAtLeast(b: int, k: int)
    requires b > 0 && k >= 1
    ensures b * k >= b
  {
  }

  /** Euclidean division is determined by its defining equation. */
  lemma DivModUnique(n: int, b: int, q: int, r: int)
    requires b > 0 && n == b * q + r && 0 <= r < b
    ensures n / b == q && n % b == r
  {
    var q' := n / b;
    var r' := n % b;
    assert n == b * q' + r';
    assert b * (q - q') == r' - r;
    if q > q' {
      MulAtLeast(b, q - q');
      assert false;
    } else if q < q' {
      MulAtLeast(b, q' - q);
      assert false;
    }
  }

  /** Reducing modulo a multiple of `b` first does not change the remainder
      modulo `b`. */
  lemma ModOfMultiple(n: int, b: int, c: int)
    requires b > 0 && c > 0
    ensures n % (b * c) % b == n % b
  {
    var m := b * c;
    var r := n % m;
    var q := n / m;
    assert n == m * q + r;
    var s := r % b;
    assert r == b * (r / b) + s;
    assert n == b * (c * q + r / b) + s;
    DivModUnique(n, b, c * q + r / b, s);
  }

  /** Splitting off the whole multiples of `k` from a non-negative real:
      the floor of the quotient is the integer quotient of the floor, and
      what is left has the remainder as its floor. */
  lemma Peel(y: real, k: int)
    requires k > 0 && y >= 0.0
    ensures (y / (k as real)).Floor == y.Floor / k
    ensures (y - ((k * (y.Floor / k)) as real)).Floor == y.Floor % k
  {
    var n := y.Floor;
    var q := n / k;
    var r := n % k;
    assert n == k * q + r;
    var d := k as real;
    var z := y - ((k * q) as real);
    assert (r as real) <= z < (r as real) + 1.0;
    assert z.Floor == r;
    assert 0.0 <= z < d;
    CastProduct(k, q);
    assert y == d * (q as real) + z;
    DivSplit(q as real, z, d);
    assert y / d == (q as real) + z / d;
    DivBelowOne(z, d);
    FloorShift(q, z / d);
    assert (y / d).Floor == q;
  }

  lemma CastProduct(k: int, q: int)
    ensures ((k * q) as real) == (k as real) * (q as real)
  {
  }

  lemma DivSplit(q: real, z: real, d: real)
    requires d > 0.0
    ensures (d * q + z) / d == q + z / d
  {
  }

  lemma DivBelowOne(z: real, d: real)
    requires d > 0.0 && 0.0 <= z < d
    ensures 0.0 <= z / d < 1.0
  {
    var w := z / d;
    assert w * d == z;
    PositiveFactor(1.0 - w, d);
    PositiveFactor(z, 1.0 / d);
  }

  /** A product with one positive factor has the sign of the other. */
  lemma PositiveFactor(a: real, d: real)
    requires d > 0.0
    ensures a * d > 0.0 <==> a > 0.0
    ensures a * d >= 0.0 <==> a >= 0.0
  {
  }

  lemma FloorShift(q: int, w: real)
    requires 0.0 <= w < 1.0
    ensures ((q as real) + w).Floor == q
  {
  }
}
