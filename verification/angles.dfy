/** Angles in degrees over exact reals, and the normalisation into [0, 360)
    used throughout the astronomy layer. */
module Angles {

  /** Rust's `f64::trunc`: the integer part, rounded toward zero. */
  function Trunc(x: real): (t: int)
    ensures x >= 0.0 ==> t as real <= x < t as real + 1.0
    ensures x < 0.0 ==> t as real - 1.0 < x <= t as real
  {
    if x >= 0.0 then x.Floor else -((-x).Floor)
  }

  /** Rust's `x % 360.0` on `f64`: the remainder carries the sign of the
      dividend (unlike Dafny's Euclidean `%`). */
  function Rem360(x: real): (r: real)
    ensures -360.0 < r < 360.0
    ensures x >= 0.0 ==> 0.0 <= r
    ensures x < 0.0 ==> r <= 0.0
    ensures Congruent(r, x)
  {
    var q := Trunc(x / 360.0);
    WholeTurns(x - 360.0 * (q as real), x, -q);
    x - 360.0 * (q as real)
  }

  /** Angles that differ by `k` whole turns are congruent. */
  lemma WholeTurns(a: real, b: real, k: int)
    requires a - b == 360.0 * (k as real)
    ensures Congruent(a, b)
  {
    assert (a - b) / 360.0 == k as real;
    assert (k as real).Floor == k;
  }

  /** The number of whole turns between two congruent angles. */
  lemma TurnsBetween(a: real, b: real) returns (k: int)
    requires Congruent(a, b)
    ensures a - b == 360.0 * (k as real)
  {
    k := ((a - b) / 360.0).Floor;
  }

  /** `a` and `b` differ by a whole number of turns. */
  predicate Congruent(a: real, b: real) {
    ((a - b) / 360.0).Floor as real == (a - b) / 360.0
  }

  lemma AddTurn(a: real, b: real)
    requires Congruent(a, b)
    ensures Congruent(a + 360.0, b)
  {
    var k := TurnsBetween(a, b);
    WholeTurns(a + 360.0, b, k + 1);
  }

  /** Adding the same angle to both sides keeps a congruence. */
  lemma ShiftBoth(a: real, b: real, c: real)
    requires Congruent(a, b)
    ensures Congruent(a + c, b + c)
  {
    var k := TurnsBetween(a, b);
    WholeTurns(a + c, b + c, k);
  }

  /** `normalize_deg`: the angle brought into [0, 360). */
  function Normalize(d: real): (r: real)
    ensures 0.0 <= r < 360.0
    ensures Congruent(r, d)
  {
    var m := Rem360(d);
    if m < 0.0 then
      AddTurn(m, d);
      m + 360.0
    else m
  }

  /** The angle in [0, 360) congruent to `d` is unique, so `Normalize` agrees
      with the Euclidean remainder `d - 360 * floor(d / 360)`. */
  lemma NormalizeIsEuclidean(d: real)
    ensures Normalize(d) == d - 360.0 * ((d / 360.0).Floor as real)
  {
    var e := d - 360.0 * ((d / 360.0).Floor as real);
    assert 0.0 <= e < 360.0;
    WholeTurns(e, d, -(d / 360.0).Floor);
    CongruentInRangeUnique(Normalize(d), e, d);
  }

  /** Two angles in [0, 360) congruent to the same angle are equal. */
  lemma CongruentInRangeUnique(a: real, b: real, d: real)
    requires 0.0 <= a < 360.0 && 0.0 <= b < 360.0
    requires Congruent(a, d) && Congruent(b, d)
    ensures a == b
  {
    var ka := TurnsBetween(a, d);
    var kb := TurnsBetween(b, d);
    assert a - b == 360.0 * ((ka - kb) as real);
    if ka - kb >= 1 || ka - kb <= -1 {
      assert false;
    }
  }

  /** Normalisation ignores whole turns. */
  lemma NormalizePeriodic(d: real, k: int)
    ensures Normalize(d + 360.0 * (k as real)) == Normalize(d)
  {
    var r := Normalize(d);
    var j := TurnsBetween(r, d);
    WholeTurns(r, d + 360.0 * (k as real), j - k);
    CongruentInRangeUnique(r, Normalize(d + 360.0 * (k as real)), d + 360.0 * (k as real));
  }

  /** Angles already in [0, 360) are left alone. */
  lemma NormalizeFixesRange(d: real)
    requires 0.0 <= d < 360.0
    ensures Normalize(d) == d
  {
    WholeTurns(d, d, 0);
    CongruentInRangeUnique(Normalize(d), d, d);
  }

  /** Normalising twice is normalising once. */
  lemma NormalizeIdempotent(d: real)
    ensures Normalize(Normalize(d)) == Normalize(d)
  {
    NormalizeFixesRange(Normalize(d));
  }
}
