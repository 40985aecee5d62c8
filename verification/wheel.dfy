/** The Human Design wheel: the ecliptic cut into 64 gates starting at 302°,
    each gate into 6 lines, each line into 6 colors, each color into 6 tones
    and each tone into 5 bases; and the 12 zodiac signs of 30°. */
module Wheel {
  import opened Collections
  import opened Angles
  import opened Arith

  /** The gates in wheel order, starting with gate 41 at 302° (written as
      eight rows of eight). */
  function GateOrder(): seq<nat> {
    [41, 19, 13, 49, 30, 55, 37, 63]
    + [22, 36, 25, 17, 21, 51, 42, 3]
    + [27, 24, 2, 23, 8, 20, 16, 35]
    + [45, 12, 15, 52, 39, 53, 62, 56]
    + [31, 33, 7, 4, 29, 59, 40, 64]
    + [47, 6, 46, 18, 48, 57, 32, 50]
    + [28, 44, 1, 43, 14, 34, 9, 5]
    + [26, 11, 10, 58, 38, 54, 61, 60]
  }

  /** The wheel order is a permutation of the gates 1..64. */
  lemma GateOrderIsPermutation()
    ensures |GateOrder()| == 64
    ensures forall g :: g in GateOrder() <==> 1 <= g <= 64
    ensures Distinct(GateOrder())
    ensures forall i | 0 <= i < 64 :: 1 <= GateOrder()[i] <= 64
  {
    WheelIndexInvertsA();
    WheelIndexInvertsB();
    WheelIndexInvertsC();
    WheelIndexInvertsD();
    var o := GateOrder();
    forall i, j | 0 <= i < j < 64 ensures o[i] != o[j] {
      assert WheelIndexOf()[o[i]] == i && WheelIndexOf()[o[j]] == j;
    }
    forall g | g in o ensures 1 <= g <= 64 {
      var i :| 0 <= i < 64 && o[i] == g;
    }
    RangeOfPermutation(o, 64);
  }

  /** Where each gate sits in `GateOrder` (entry 0 is unused). */
  function WheelIndexOf(): seq<nat> {
    [0, 50, 18, 15, 35, 55, 41, 34, 20, 54, 58, 57, 25]
    + [2, 52, 26, 22, 11, 43, 1, 21, 12, 8, 19, 17, 10]
    + [56, 16, 48, 36, 4, 32, 46, 33, 53, 23, 9, 6, 60]
    + [28, 38, 0, 14, 51, 49, 24, 42, 40, 44, 3, 47, 13]
    + [27, 29, 61, 5, 31, 45, 59, 37, 63, 62, 30, 7, 39]
  }

  lemma WheelIndexInvertsA()
    ensures |GateOrder()| == 64 && |WheelIndexOf()| == 65
    ensures forall i | 0 <= i < 16 :: 1 <= GateOrder()[i] <= 64 && WheelIndexOf()[GateOrder()[i]] == i
  {
  }

  lemma WheelIndexInvertsB()
    ensures |GateOrder()| == 64 && |WheelIndexOf()| == 65
    ensures forall i | 16 <= i < 32 :: 1 <= GateOrder()[i] <= 64 && WheelIndexOf()[GateOrder()[i]] == i
  {
  }

  lemma WheelIndexInvertsC()
    ensures |GateOrder()| == 64 && |WheelIndexOf()| == 65
    ensures forall i | 32 <= i < 48 :: 1 <= GateOrder()[i] <= 64 && WheelIndexOf()[GateOrder()[i]] == i
  {
  }

  lemma WheelIndexInvertsD()
    ensures |GateOrder()| == 64 && |WheelIndexOf()| == 65
    ensures forall i | 48 <= i < 64 :: 1 <= GateOrder()[i] <= 64 && WheelIndexOf()[GateOrder()[i]] == i
  {
  }

  /** `GATE_ORDER[i]`: the gate at wheel index `i`. */
  function GateAt(i: nat): (g: nat)
    requires i < 64
    ensures 1 <= g <= 64
  {
    GateOrderIsPermutation();
    GateOrder()[i]
  }

  const WheelStartDegree: real := 302.0
  /** 5°37'30". */
  const GateSize: real := 5.625
  /** 56'15", a sixth of a gate. */
  const LineSize: real := 0.9375
  /** A sixth of a line. */
  const ColorSize: real := 0.15625
  const ToneSize: real := ColorSize / 6.0
  const BaseSize: real := ToneSize / 5.0

  /** A longitude's place on the wheel; `degree` is the normalised longitude. */
  datatype GatePosition = GatePosition(gate: nat, line: nat, color: nat, tone: nat, base: nat, degree: real)

  /** Degrees past the start of gate 41, for a normalised longitude. */
  function WheelOffset(deg: real): (o: real)
    requires 0.0 <= deg < 360.0
    ensures 0.0 <= o < 360.0
    ensures Congruent(o, deg - WheelStartDegree)
  {
    var o := deg - WheelStartDegree;
    if o < 0.0 then
      WholeTurns(o + 360.0, o, 1);
      o + 360.0
    else
      WholeTurns(o, o, 0);
      o
  }

  /** One level below the gate: the index of the slot of width `size` that
      holds `within` (Rust's `floor() as u8`), the level's 1-based value
      clamped to `count`, and what is left inside the slot. The remainder is
      taken from the unclamped index, as in the source. */
  datatype Level = Level(index: nat, value: int, rest: real)

  function Subdivide(within: real, size: real, count: nat): (l: Level)
    requires size > 0.0
    ensures l.value <= count
  {
    var index := SatU8((within / size).Floor);
    Level(index, Min(index + 1, count), within - (index as real) * size)
  }

  /** `degree_to_gate`: normalise, measure from the start of gate 41, then
      read the levels off the offset. */
  function DegreeToGate(x: real): (p: GatePosition)
    ensures 1 <= p.gate <= 64
    ensures 1 <= p.line <= 6 && 1 <= p.color <= 6 && 1 <= p.tone <= 6
    ensures 1 <= p.base <= 5
    ensures 0.0 <= p.degree < 360.0 && Congruent(p.degree, x)
  {
    var deg := Normalize(x);
    PositionAt(WheelOffset(deg), deg)
  }

  /** The levels of an offset: the gate index is clamped before its
      remainder is taken; each lower level is read from what the level above
      leaves. */
  function PositionAt(offset: real, deg: real): (p: GatePosition)
    requires 0.0 <= offset < 360.0
    ensures 1 <= p.gate <= 64
    ensures 1 <= p.line <= 6 && 1 <= p.color <= 6 && 1 <= p.tone <= 6
    ensures 1 <= p.base <= 5
    ensures p.degree == deg
  {
    var gateIndex := Min(SatUsize((offset / GateSize).Floor), 63);
    var line := Subdivide(offset - (gateIndex as real) * GateSize, LineSize, 6);
    var color := Subdivide(line.rest, ColorSize, 6);
    var tone := Subdivide(color.rest, ToneSize, 6);
    var base := Subdivide(tone.rest, BaseSize, 5);
    GatePosition(GateAt(gateIndex), line.value, color.value, tone.value, base.value, deg)
  }

  /** Whole bases (1/192°) between the start of gate 41 and the longitude:
      the single number every level of the wheel is read from. */
  function BaseCount(x: real): (n: int)
    ensures 0 <= n < 69120
  {
    (WheelOffset(Normalize(x)) * 192.0).Floor
  }

  /** The wheel read off `BaseCount` in mixed radix 64·6·6·6·5. */
  function FromBaseCount(n: int, degree: real): GatePosition
    requires 0 <= n < 69120
  {
    GatePosition(GateAt(n / 1080), n % 1080 / 180 + 1, n % 180 / 30 + 1, n % 30 / 5 + 1, n % 5 + 1, degree)
  }

  /** A level whose width is `k` bases, applied to a non-negative
      remainder: no clamp fires, and the slot index and what is left are the
      integer quotient and remainder of the whole bases in `within`. */
  lemma SubdivideExact(within: real, size: real, k: int, count: nat)
    requires 0 < k && size == (k as real) / 192.0 && within >= 0.0
    requires (within * 192.0).Floor / k < count <= 255
    ensures var n := (within * 192.0).Floor;
            var l := Subdivide(within, size, count);
            && l.index == n / k && l.value == n / k + 1
            && l.rest >= 0.0 && (l.rest * 192.0).Floor == n % k
  {
    var y := within * 192.0;
    var n := y.Floor;
    Peel(y, k);
    assert within / size == y / (k as real);
    var l := Subdivide(within, size, count);
    assert l.rest * 192.0 == y - ((k * (n / k)) as real);
  }

  /** Under exact arithmetic every level's index already lies in range, so
      none of the `min` clamps or saturating casts changes a value, and the
      result is the mixed-radix reading of the base count. */
  lemma DegreeToGateDigits(x: real)
    ensures DegreeToGate(x) == FromBaseCount(BaseCount(x), Normalize(x))
  {
    var d := Normalize(x);
    var o := WheelOffset(d);
    assert DegreeToGate(x) == PositionAt(o, d);
    assert BaseCount(x) == (o * 192.0).Floor;
    PositionDigits(o, d);
  }

  lemma PositionDigits(offset: real, deg: real)
    requires 0.0 <= offset < 360.0
    ensures 0 <= (offset * 192.0).Floor < 69120
    ensures PositionAt(offset, deg) == FromBaseCount((offset * 192.0).Floor, deg)
  {
    var n := (offset * 192.0).Floor;
    Peel(offset * 192.0, 1080);
    assert offset / GateSize == offset * 192.0 / 1080.0;
    var g := n / 1080;
    var withinGate := offset - (g as real) * GateSize;
    assert withinGate * 192.0 == offset * 192.0 - ((1080 * g) as real);
    assert Min(SatUsize((offset / GateSize).Floor), 63) == g;
    var line := Subdivide(withinGate, LineSize, 6);
    var color := Subdivide(line.rest, ColorSize, 6);
    var tone := Subdivide(color.rest, ToneSize, 6);
    var base := Subdivide(tone.rest, BaseSize, 5);
    assert PositionAt(offset, deg)
        == GatePosition(GateAt(g), line.value, color.value, tone.value, base.value, deg);
    var m := (withinGate * 192.0).Floor;
    assert m == n % 1080;
    ModOfMultiple(n, 180, 6);
    ModOfMultiple(n, 30, 36);
    ModOfMultiple(n, 5, 216);
    assert m % 180 == n % 180 && m % 30 == n % 30 && m % 5 == n % 5;
    LowerLevelsExact(withinGate);
  }

  /** The four levels below a gate, read from the part of the gate the
      longitude has covered. */
  lemma LowerLevelsExact(w: real)
    requires w >= 0.0 && (w * 192.0).Floor < 1080
    ensures var m := (w * 192.0).Floor;
            var line := Subdivide(w, LineSize, 6);
            var color := Subdivide(line.rest, ColorSize, 6);
            var tone := Subdivide(color.rest, ToneSize, 6);
            var base := Subdivide(tone.rest, BaseSize, 5);
            && line.value == m / 180 + 1 && color.value == m % 180 / 30 + 1
            && tone.value == m % 30 / 5 + 1 && base.value == m % 5 + 1
  {
    var m := (w * 192.0).Floor;
    SubdivideExact(w, LineSize, 180, 6);
    var rest := Subdivide(w, LineSize, 6).rest;
    var m2 := (rest * 192.0).Floor;
    assert m2 == m % 180;
    ModOfMultiple(m, 30, 6);
    ModOfMultiple(m, 5, 36);
    assert m2 % 30 == m % 30 && m2 % 5 == m % 5;
    ColorLevelsExact(rest);
  }

  lemma ColorLevelsExact(w: real)
    requires w >= 0.0 && (w * 192.0).Floor < 180
    ensures var m := (w * 192.0).Floor;
            var color := Subdivide(w, ColorSize, 6);
            var tone := Subdivide(color.rest, ToneSize, 6);
            var base := Subdivide(tone.rest, BaseSize, 5);
            && color.value == m / 30 + 1 && tone.value == m % 30 / 5 + 1 && base.value == m % 5 + 1
  {
    var m := (w * 192.0).Floor;
    SubdivideExact(w, ColorSize, 30, 6);
    ModOfMultiple(m, 5, 6);
    ToneLevelsExact(Subdivide(w, ColorSize, 6).rest);
  }

  lemma ToneLevelsExact(w: real)
    requires w >= 0.0 && (w * 192.0).Floor < 30
    ensures var m := (w * 192.0).Floor;
            var tone := Subdivide(w, ToneSize, 6);
            var base := Subdivide(tone.rest, BaseSize, 5);
            && tone.value == m / 5 + 1 && base.value == m % 5 + 1
  {
    SubdivideExact(w, ToneSize, 5, 6);
    var tone := Subdivide(w, ToneSize, 6);
    SubdivideExact(tone.rest, BaseSize, 1, 5);
  }

  /** The two-step offset of the source is one normalisation of `x - 302`. */
  lemma WheelOffsetIsNormalized(x: real)
    ensures WheelOffset(Normalize(x)) == Normalize(x - WheelStartDegree)
  {
    var o := WheelOffset(Normalize(x));
    var k1 := TurnsBetween(o, Normalize(x) - WheelStartDegree);
    var k2 := TurnsBetween(Normalize(x), x);
    WholeTurns(o, x - WheelStartDegree, k1 + k2);
    CongruentInRangeUnique(o, Normalize(x - WheelStartDegree), x - WheelStartDegree);
  }

  /** Whole turns do not move a longitude on the wheel. */
  lemma DegreeToGatePeriodic(x: real, k: int)
    ensures DegreeToGate(x + 360.0 * (k as real)) == DegreeToGate(x)
  {
    NormalizePeriodic(x, k);
  }

  /** The wheel starts with gate 41, line 1, color 1, tone 1, base 1 at 302°. */
  lemma WheelStart()
    ensures DegreeToGate(302.0) == GatePosition(41, 1, 1, 1, 1, 302.0)
  {
    NormalizeFixesRange(302.0);
    DegreeToGateDigits(302.0);
    assert BaseCount(302.0) == 0;
    assert GateOrder()[0] == 41;
  }

  /** The mixed-radix digits add back up to the base count. */
  lemma MixedRadix(n: int)
    requires 0 <= n
    ensures n == 1080 * (n / 1080) + 180 * (n % 1080 / 180) + 30 * (n % 180 / 30) + 5 * (n % 30 / 5) + n % 5
  {
    ModOfMultiple(n, 180, 6);
    ModOfMultiple(n, 30, 6);
    ModOfMultiple(n, 5, 6);
    assert n % 1080 == 180 * (n % 1080 / 180) + n % 1080 % 180;
    assert n % 180 == 30 * (n % 180 / 30) + n % 180 % 30;
    assert n % 30 == 5 * (n % 30 / 5) + n % 30 % 5;
  }

  /** Degrees from the wheel start to the first base of the given cell:
      `i` whole gates plus the 1-based line, color, tone and base. */
  function CellStart(i: int, line: int, color: int, tone: int, base: int): real {
    (i as real) * GateSize + ((line - 1) as real) * LineSize + ((color - 1) as real) * ColorSize
    + ((tone - 1) as real) * ToneSize + ((base - 1) as real) * BaseSize
  }

  /** The offset from 302° is recovered from the wheel index and the five
      levels, up to less than one base. */
  lemma Reconstruction(x: real)
    ensures var p := DegreeToGate(x);
            var i := BaseCount(x) / 1080;
            var r := Normalize(x - WheelStartDegree) - CellStart(i, p.line, p.color, p.tone, p.base);
            && i < 64 && p.gate == GateAt(i)
            && 0.0 <= r < BaseSize
  {
    WheelOffsetIsNormalized(x);
    DegreeToGateDigits(x);
    var n := BaseCount(x);
    var p := DegreeToGate(x);
    assert p == FromBaseCount(n, Normalize(x));
    ReconstructOffset(Normalize(x - WheelStartDegree), n / 1080, p.line, p.color, p.tone, p.base);
  }

  /** The same reconstruction read directly off the base count. */
  lemma ReconstructOffset(o: real, g: int, l: int, c: int, t: int, b: int)
    requires 0.0 <= o
    requires var n := (o * 192.0).Floor;
             g == n / 1080 && l == n % 1080 / 180 + 1 && c == n % 180 / 30 + 1
             && t == n % 30 / 5 + 1 && b == n % 5 + 1
    ensures 0.0 <= o - CellStart(g, l, c, t, b) < BaseSize
  {
    var n := (o * 192.0).Floor;
    MixedRadix(n);
    CountAsDegrees(n, g, l - 1, c - 1, t - 1, b - 1);
  }

  lemma CountAsDegrees(n: int, g: int, l: int, c: int, t: int, b: int)
    requires n == 1080 * g + 180 * l + 30 * c + 5 * t + b
    ensures (n as real) / 192.0
            == (g as real) * GateSize + (l as real) * LineSize + (c as real) * ColorSize
               + (t as real) * ToneSize + (b as real) * BaseSize
  {
  }

  /** The gate at each wheel index is a different gate. */
  lemma GateAtInjective(i: nat, j: nat)
    requires i < 64 && j < 64
    ensures GateAt(i) == GateAt(j) <==> i == j
  {
    GateOrderIsPermutation();
  }

  /** A longitude is in gate `GATE_ORDER[i]` exactly when its offset from
      302° lies in the i-th 5.625° cell. */
  lemma GateCell(x: real, i: nat)
    requires i < 64
    ensures DegreeToGate(x).gate == GateAt(i)
            <==> GateSize * (i as real) <= Normalize(x - WheelStartDegree) < GateSize * ((i + 1) as real)
  {
    WheelOffsetIsNormalized(x);
    DegreeToGateDigits(x);
    var n := BaseCount(x);
    var o := Normalize(x - WheelStartDegree);
    assert (n as real) <= o * 192.0 < (n as real) + 1.0;
    GateAtInjective(n / 1080, i);
    assert n / 1080 == i <==> 1080 * i <= n < 1080 * (i + 1);
  }

  /** Half a turn is exactly 32 gates: the point opposite a longitude sits
      32 places further round the wheel, on the same line, color, tone and
      base (so Earth always shares the Sun's line). */
  lemma Opposite(x: real)
    ensures var p := DegreeToGate(x);
            var q := DegreeToGate(x + 180.0);
            && BaseCount(x + 180.0) / 1080 == (BaseCount(x) / 1080 + 32) % 64
            && q.line == p.line && q.color == p.color && q.tone == p.tone && q.base == p.base
  {
    OppositeCount(x);
    DegreeToGateDigits(x);
    DegreeToGateDigits(x + 180.0);
    OppositeDigits(BaseCount(x), BaseCount(x + 180.0), DegreeToGate(x), DegreeToGate(x + 180.0));
  }

  lemma OppositeDigits(n: int, n': int, p: GatePosition, q: GatePosition)
    requires 0 <= n < 69120 && 0 <= n' < 69120
    requires n < 34560 ==> n' == n + 34560
    requires n >= 34560 ==> n' == n - 34560
    requires p == FromBaseCount(n, p.degree) && q == FromBaseCount(n', q.degree)
    ensures n' / 1080 == (n / 1080 + 32) % 64
    ensures q.line == p.line && q.color == p.color && q.tone == p.tone && q.base == p.base
  {
    HalfWheelIndex(n);
    if n < 34560 {
      ShiftDigits(n, n', 32);
      DivModUnique(n / 1080 + 32, 64, 0, n / 1080 + 32);
    } else {
      ShiftDigits(n', n, 32);
      DivModUnique(n / 1080 + 32, 64, 1, n' / 1080);
    }
  }

  /** The first half turn of bases is the first 32 wheel places. */
  lemma HalfWheelIndex(n: int)
    requires 0 <= n < 69120
    ensures n / 1080 < 64
    ensures n < 34560 <==> n / 1080 < 32
  {
  }

  /** Half a turn adds or removes exactly 34560 bases. */
  lemma OppositeCount(x: real)
    ensures BaseCount(x) < 34560 ==> BaseCount(x + 180.0) == BaseCount(x) + 34560
    ensures BaseCount(x) >= 34560 ==> BaseCount(x + 180.0) == BaseCount(x) - 34560
  {
    WheelOffsetIsNormalized(x);
    WheelOffsetIsNormalized(x + 180.0);
    var o := Normalize(x - WheelStartDegree);
    var n := (o * 192.0).Floor;
    assert BaseCount(x) == n;
    assert x + 180.0 - WheelStartDegree == (x - WheelStartDegree) + 180.0;
    if o < 180.0 {
      HalfTurn(x - WheelStartDegree, o, o + 180.0, 1);
      assert (o + 180.0) * 192.0 == o * 192.0 + (34560 as real);
      ShiftedFloor(o * 192.0, 34560);
      assert BaseCount(x + 180.0) == n + 34560;
    } else {
      HalfTurn(x - WheelStartDegree, o, o - 180.0, 0);
      assert (o - 180.0) * 192.0 == o * 192.0 + (-34560 as real);
      ShiftedFloor(o * 192.0, -34560);
      assert BaseCount(x + 180.0) == n - 34560;
    }
  }

  lemma ShiftedFloor(y: real, k: int)
    ensures (y + (k as real)).Floor == y.Floor + k
  {
  }

  lemma HalfTurn(d: real, o: real, o': real, k: int)
    requires 0.0 <= o < 360.0 && o == Normalize(d)
    requires 0.0 <= o' < 360.0 && o' == o + 180.0 - 360.0 * (1 - k) as real
    ensures o' == Normalize(d + 180.0)
  {
    var j := TurnsBetween(o, d);
    WholeTurns(o', d + 180.0, j - 1 + k);
    CongruentInRangeUnique(o', Normalize(d + 180.0), d + 180.0);
  }

  /** Adding 32 whole gates keeps every lower digit. */
  lemma ShiftDigits(n: int, n': int, s: int)
    requires 0 <= n && 0 <= s && n' == n + 1080 * s
    ensures n' / 1080 == n / 1080 + s
    ensures n' % 1080 / 180 == n % 1080 / 180 && n' % 180 / 30 == n % 180 / 30
    ensures n' % 30 / 5 == n % 30 / 5 && n' % 5 == n % 5
  {
    DivModUnique(n', 1080, n / 1080 + s, n % 1080);
    DivModUnique(n', 180, n / 180 + 6 * s, n % 180);
    DivModUnique(n', 30, n / 30 + 36 * s, n % 30);
    DivModUnique(n', 5, n / 5 + 216 * s, n % 5);
  }

  /** Zodiac sign keys, from Aries at 0°. */
  function ZodiacSigns(): seq<string> {
    ["aries", "taurus", "gemini", "cancer", "leo", "virgo",
     "libra", "scorpio", "sagittarius", "capricorn", "aquarius", "pisces"]
  }

  /** `degree_to_zodiac`: the sign holding the longitude and the degrees
      already covered inside that sign. */
  function DegreeToZodiac(x: real): (z: (string, real))
    ensures 0.0 <= z.1 < 30.0
  {
    var d := Normalize(x);
    var signIndex := SatUsize((d / 30.0).Floor);
    var within := d - (signIndex as real) * 30.0;
    (ZodiacSigns()[signIndex % 12], within)
  }

  /** A longitude whose normalised value lies in the k-th 30° span is in the
      k-th sign, `within` degrees into it; the `% 12` never wraps. */
  lemma ZodiacOfSpan(x: real, k: nat)
    requires k < 12
    requires 30.0 * (k as real) <= Normalize(x) < 30.0 * ((k + 1) as real)
    ensures DegreeToZodiac(x) == (ZodiacSigns()[k], Normalize(x) - 30.0 * (k as real))
  {
    var d := Normalize(x);
    assert (d / 30.0).Floor == k;
  }

  /** Every longitude falls in exactly one span, so `ZodiacOfSpan` covers all
      inputs. */
  lemma ZodiacSpanExists(x: real) returns (k: nat)
    ensures k < 12
    ensures 30.0 * (k as real) <= Normalize(x) < 30.0 * ((k + 1) as real)
  {
    k := (Normalize(x) / 30.0).Floor;
  }
}
