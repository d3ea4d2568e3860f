/** The fixed-point compensation formulas of bme680.c. */
module Compensation {

  // ---------------------------------------------------------------- C arithmetic

  /** x >> k on a signed value: floor of x / 2^k. The divisor is written out. */
  function Shift(x: int, power: int): (r: int)
    requires power > 0
  {
    x / power
  }

  /** The C quotient, which truncates towards zero. */
  function Quotient(x: int, y: int): (r: int)
    requires y != 0
  {
    if x >= 0 then x / y else -((-x) / y)
  }

  /** Conversion to s16, s32, s64 and u32, which wraps. */
  function S16(x: int): (r: int)
  {
    (x + 0x8000) % 0x1_0000 - 0x8000
  }

  function S32(x: int): (r: int)
  {
    (x + 0x8000_0000) % 0x1_0000_0000 - 0x8000_0000
  }

  function S64(x: int): (r: int)
  {
    (x + 0x8000_0000_0000_0000) % 0x1_0000_0000_0000_0000 - 0x8000_0000_0000_0000
  }

  function U32(x: int): (r: int)
  {
    x % 0x1_0000_0000
  }

  /**
   How wide the machine word is in which a formula is worked out. `Exact` never wraps and has no
   casts; `Unbounded` never wraps but makes the casts that the code writes.
   */
  datatype Width = Exact | Unbounded | Bits32 | Bits64

  function W(width: Width, x: int): (r: int)
  {
    match width
    case Exact => x
    case Unbounded => x
    case Bits32 => S32(x)
    case Bits64 => S64(x)
  }

  /** The cast (u32)x in a formula. */
  function CastU32(width: Width, x: int): (r: int)
  {
    if width == Exact then x else U32(x)
  }

  predicate Fits32(x: int)
  {
    -0x8000_0000 <= x < 0x8000_0000
  }

  predicate Fits64(x: int)
  {
    -0x8000_0000_0000_0000 <= x < 0x8000_0000_0000_0000
  }

  lemma FittingIsExact(x: int)
    ensures Fits32(x) <==> S32(x) == x
    ensures Fits64(x) <==> S64(x) == x
    ensures -0x8000 <= x < 0x8000 <==> S16(x) == x
  {
  }

  lemma ProductBound(x: int, xMax: int, y: int, yMax: int)
    requires -xMax <= x <= xMax && -yMax <= y <= yMax
    ensures -(xMax * yMax) <= x * y <= xMax * yMax
  {
    MonotoneProduct(x, xMax, yMax);
    MonotoneProduct(-xMax, x, yMax);
    if x >= 0 {
      MonotoneProduct(y, yMax, x);
      MonotoneProduct(-yMax, y, x);
    } else {
      MonotoneProduct(y, yMax, -x);
      MonotoneProduct(-yMax, y, -x);
    }
  }

  lemma MonotoneProduct(x: int, x': int, y: int)
    requires x <= x' && 0 <= y
    ensures x * y <= x' * y
  {
    assert (x' - x) * y >= 0;
  }

  // ---------------------------------------------------------------- unpacking

  type U8 = x: int | 0 <= x < 0x100
  type S8 = x: int | -0x80 <= x < 0x80
  type U16 = x: int | 0 <= x < 0x1_0000
  type S16T = x: int | -0x8000 <= x < 0x8000

  /** (msb << 12) | (lsb << 4) | (xlsb >> 4), whose parts do not overlap. */
  function Unpack20(msb: U8, lsb: U8, xlsb: U8): (r: int)
    ensures 0 <= r < 0x10_0000
  {
    msb * 4096 + lsb * 16 + xlsb / 16
  }

  /** par_h2 from its two bytes: (msb << 4) | ((lsb >> 4) & 0x0f). */
  function UnpackH2(msb: U8, lsb: U8): (r: int)
    ensures 0 <= r <= 4095
  {
    msb * 16 + lsb / 16
  }

  /** par_h1 as the code reads it, both parts from one byte: (b << 4) | (b & 0x0f). */
  function UnpackH1(b: U8): (r: int)
    ensures 0 <= r <= 4095
  {
    b * 16 + b % 16
  }

  /** The sums above are the disjunctions of the C code. */
  lemma UnpackForms(a: bv32, b: bv32, c: bv32)
    requires a < 0x100 && b < 0x100 && c < 0x100
    ensures (a << 12) | (b << 4) | (c >> 4) == a * 4096 + b * 16 + c / 16
    ensures (a << 4) | ((b >> 4) & 0x0f) == a * 16 + b / 16
    ensures (a << 4) | (a & 0x0f) == a * 16 + a % 16
  {
  }

  // ---------------------------------------------------------------- temperature

  function Var1(t1: U16, adc: int): (r: int)
  {
    Shift(adc, 8) - t1 * 2
  }

  function Linear(var1: int, t2: S16T): (r: int)
  {
    Shift(var1 * t2, 2048)
  }

  function Square(half: int): (r: int)
  {
    Shift(half * half, 4096)
  }

  function Quadratic(square: int, t3: S8): (r: int)
  {
    Shift(square * (t3 * 16), 16384)
  }

  /** calc_temperature: t_fine before its cast to s32, on unbounded integers. */
  function TFine(t1: U16, t2: S16T, t3: S8, adc: int): (r: int)
  {
    Linear(Var1(t1, adc), t2) + Quadratic(Square(Shift(Var1(t1, adc), 2)), t3)
  }

  /** The returned temperature: the s16 of a value in hundredths of a degree. */
  function Centidegrees(tFine: int): (r: int)
  {
    Shift(tFine * 5 + 128, 256)
  }

  function Temperature(tFine: int): (r: int)
  {
    S16(Centidegrees(tFine))
  }

  lemma LinearBound(var1: int, t2: S16T)
    requires -131071 <= var1 <= 131071
    ensures -2097136 <= Linear(var1, t2) <= 2097136
  {
    ProductBound(var1, 131071, t2, 32768);
  }

  lemma SquareBound(half: int)
    requires -65535 <= half <= 65535
    ensures 0 <= Square(half) <= 1048544
  {
    ProductBound(half, 65535, half, 65535);
    if half >= 0 {
      MonotoneProduct(0, half, half);
    } else {
      MonotoneProduct(0, -half, -half);
    }
  }

  lemma QuadraticBound(square: int, t3: S8)
    requires 0 <= square <= 1048544
    ensures -131068 <= Quadratic(square, t3) <= 131068
  {
    ProductBound(square, 1048544, t3 * 16, 2048);
  }

  /** For every frame and calibration t_fine stays within bounds, far inside s32. */
  lemma TFineBounded(t1: U16, t2: S16T, t3: S8, adc: int)
    requires 0 <= adc < 0x10_0000
    ensures -2228224 <= TFine(t1, t2, t3, adc) <= 2228224 && S32(TFine(t1, t2, t3, adc)) == TFine(t1, t2, t3, adc)
    ensures Fits32(TFine(t1, t2, t3, adc) * 5 + 128)
  {
    var var1 := Var1(t1, adc);
    LinearBound(var1, t2);
    SquareBound(Shift(var1, 2));
    QuadraticBound(Square(Shift(var1, 2)), t3);
  }

  /** With t2 >= 8192 the linear part rises by at least four for each step of var1. */
  lemma LinearRises(v: int, v': int, t2: S16T)
    requires v <= v' && t2 >= 8192
    ensures Linear(v', t2) >= Linear(v, t2) + 4 * (v' - v)
  {
    var p, p' := v * t2, v' * t2;
    assert p' - p == (v' - v) * t2;
    MonotoneProduct(8192, t2, v' - v);
    assert p' >= p + 2048 * (4 * (v' - v));
  }

  /** The square of half of var1 moves by at most 32 for each step of the half. */
  lemma SquareMoves(h: int, h': int)
    requires -65535 <= h <= h' <= 65535
    ensures -32 * (h' - h) <= Square(h') - Square(h) <= 32 * (h' - h)
  {
    var q, q' := h * h, h' * h';
    assert q' - q == (h' - h) * (h' + h);
    ProductBound(h' + h, 131070, h' - h, h' - h);
    assert 131070 * (h' - h) <= 131072 * (h' - h);
    assert q - 4096 * (32 * (h' - h)) <= q' <= q + 4096 * (32 * (h' - h));
  }

  /** The quadratic part falls by at most four for every 32 that the square moves. */
  lemma QuadraticMoves(s: int, s': int, t3: S8, e: nat)
    requires -32 * e <= s' - s <= 32 * e
    ensures Quadratic(s', t3) >= Quadratic(s, t3) - 4 * e
  {
    var p, p' := s * (t3 * 16), s' * (t3 * 16);
    assert p' - p == (s' - s) * (t3 * 16);
    ProductBound(s' - s, 32 * e, t3 * 16, 2048);
    assert 32 * e * 2048 == 16384 * (4 * e);
    assert p' >= p - 16384 * (4 * e);
  }

  /** With par_t2 >= 8192, t_fine never falls as the reading rises, whatever par_t1 and par_t3. */
  lemma TFineMonotone(t1: U16, t2: S16T, t3: S8, adc: int, adc': int)
    requires 0 <= adc <= adc' < 0x10_0000 && t2 >= 8192
    ensures TFine(t1, t2, t3, adc) <= TFine(t1, t2, t3, adc')
  {
    var v, v' := Var1(t1, adc), Var1(t1, adc');
    var h, h' := Shift(v, 2), Shift(v', 2);
    LinearRises(v, v', t2);
    SquareMoves(h, h');
    QuadraticMoves(Square(h), Square(h'), t3, h' - h);
    assert h' - h <= v' - v;
  }

  /** The s16 cast is harmless exactly on this interval of t_fine. */
  lemma TemperatureExactIff(tFine: int)
    requires -2228224 <= tFine <= 2228224
    ensures Temperature(tFine) == Centidegrees(tFine) <==> -1677747 <= tFine <= 1677695
  {
  }

  /** Where the cast does not wrap, the returned temperature does not fall as the reading rises. */
  lemma TemperatureMonotone(t1: U16, t2: S16T, t3: S8, adc: int, adc': int)
    requires 0 <= adc <= adc' < 0x10_0000 && t2 >= 8192
    requires -1677747 <= TFine(t1, t2, t3, adc) && TFine(t1, t2, t3, adc') <= 1677695
    ensures Temperature(TFine(t1, t2, t3, adc)) <= Temperature(TFine(t1, t2, t3, adc'))
  {
    TFineMonotone(t1, t2, t3, adc, adc');
    TFineBounded(t1, t2, t3, adc);
    TFineBounded(t1, t2, t3, adc');
    RoundingMonotone(TFine(t1, t2, t3, adc), TFine(t1, t2, t3, adc'));
  }

  lemma RoundingMonotone(tFine: int, tFine': int)
    requires -1677747 <= tFine <= tFine' <= 1677695
    ensures Temperature(tFine) <= Temperature(tFine')
  {
    TemperatureExactIff(tFine);
    TemperatureExactIff(tFine');
  }

  // ---------------------------------------------------------------- pressure

  datatype PressureCalib = PressureCalib(p1: U16, p2: S16T, p3: S8, p4: S16T, p5: S16T, p6: S8, p7: S8,
                                         p8: S16T, p9: S16T, p10: U8)

  /** var1 of calc_pressure, first assignment. */
  function PressureBase(tFine: int): (r: int)
  {
    Shift(tFine, 2) - 64000
  }

  /** ((var1 >> 2) * (var1 >> 2)) >> k, where 2^k is `power`. */
  function QuarterSquare(width: Width, base: int, power: int): (r: int)
    requires power > 0
  {
    Shift(W(width, Shift(base, 4) * Shift(base, 4)), power)
  }

  /** var2 of calc_pressure. */
  function PressureOffset(width: Width, c: PressureCalib, base: int): (r: int)
  {
    var a := Shift(W(width, QuarterSquare(width, base, 2048) * c.p6), 4);
    var b := W(width, a + W(width, W(width, base * c.p5) * 2));
    W(width, Shift(b, 4) + W(width, c.p4 * 65536))
  }

  /** var1 of calc_pressure just before it is scaled by par_p1. */
  function PressureGain(width: Width, c: PressureCalib, base: int): (r: int)
  {
    var a := Shift(W(width, QuarterSquare(width, base, 8192) * (c.p3 * 32)), 8);
    Shift(W(width, a + Shift(W(width, c.p2 * base), 2)), 262144)
  }

  /** The divisor passed to div64_s64. */
  function PressureDivisor(width: Width, c: PressureCalib, base: int): (r: int)
  {
    Shift(W(width, W(width, 32768 + PressureGain(width, c, base)) * c.p1), 32768)
  }

  /** ((calc_press >> 13) * (calc_press >> 13)) >> 12 */
  function PressureSquare(width: Width, pressed: int): (r: int)
  {
    Shift(W(width, Shift(pressed, 8192) * Shift(pressed, 8192)), 4096)
  }

  /** What follows the division. */
  function PressureTail(width: Width, c: PressureCalib, pressed: int): (r: int)
  {
    var square := PressureSquare(width, pressed);
    var a := Shift(W(width, c.p9 * square), 33554432);
    var b := Shift(W(width, c.p8 * pressed), 524288);
    var d := Shift(W(width, c.p10 * pressed), 281474976710656);
    W(width, pressed + Shift(W(width, W(width, W(width, a + b) + d) + c.p7 * 128), 16))
  }

  /** The u32 dividend; pressure_adc is 20 bits wide. */
  function PressureDividend(width: Width, offset: int, adc: int): (r: int)
  {
    CastU32(width, W(width, W(width, 1048576 - adc - Shift(offset, 4096)) * 3125))
  }

  /** calc_press right after the division, before its correction by its own square and par_p7 to par_p10. */
  function Pressed(width: Width, c: PressureCalib, tFine: int, adc: int): (r: int)
    requires PressureDivisor(width, c, PressureBase(tFine)) != 0
  {
    var base := PressureBase(tFine);
    var dividend := PressureDividend(width, PressureOffset(width, c, base), adc);
    W(width, Quotient(dividend, PressureDivisor(width, c, base)) * 1000)
  }

  /** Without its casts, calc_pressure is the same on unbounded integers. */
  lemma UnboundedIsExact(c: PressureCalib, base: int, pressed: int)
    ensures PressureOffset(Unbounded, c, base) == PressureOffset(Exact, c, base)
    ensures PressureDivisor(Unbounded, c, base) == PressureDivisor(Exact, c, base)
    ensures PressureTail(Unbounded, c, pressed) == PressureTail(Exact, c, pressed)
  {
  }

  /** calc_pressure in words of the given width. */
  function Pressure(width: Width, c: PressureCalib, tFine: int, adc: int): (r: int)
    requires PressureDivisor(width, c, PressureBase(tFine)) != 0
  {
    CastU32(width, PressureTail(width, c, Pressed(width, c, tFine, adc)))
  }

  /** From -40 to 85 degrees Celsius. */
  predicate InTemperatureRange(tFine: int)
  {
    -204800 <= tFine <= 435200
  }

  lemma QuarterSquareExact(base: int, power: int)
    requires -166400 <= base <= 166400 && power > 0
    ensures QuarterSquare(Bits64, base, power) == QuarterSquare(Exact, base, power)
    ensures 0 <= Shift(base, 4) * Shift(base, 4) <= 1730560000
  {
    hide S32, S64;
    var q := Shift(base, 4);
    ProductBound(q, 41600, q, 41600);
    MonotoneProduct(0, if q >= 0 then q else -q, if q >= 0 then q else -q);
    FittingIsExact(q * q);
  }

  lemma GainExact(c: PressureCalib, base: int)
    requires -166400 <= base <= 166400
    ensures PressureGain(Bits64, c, base) == PressureGain(Exact, c, base)
    ensures -10813 <= PressureGain(Exact, c, base) <= 10813
  {
    hide S32, S64;
    QuarterSquareExact(base, 8192);
    var square := QuarterSquare(Exact, base, 8192);
    assert 0 <= square <= 211250;
    ProductBound(square, 211250, c.p3 * 32, 4096);
    ProductBound(c.p2, 32768, base, 166400);
    FittingIsExact(square * (c.p3 * 32));
    FittingIsExact(c.p2 * base);
    var a := Shift(square * (c.p3 * 32), 8);
    var b := Shift(c.p2 * base, 2);
    GainSum(a, b);
    FittingIsExact(a + b);
  }

  lemma GainSum(a: int, b: int)
    requires -108160000 <= a <= 108160000 && -2726297600 <= b <= 2726297600
    ensures Fits64(a + b) && -10813 <= Shift(a + b, 262144) <= 10813
  {
  }

  /**
   Over the sensor's temperature range the divisor is never negative, and it is zero for, and only
   for, par_p1 == 0 and par_p1 == 1 with a negative gain: calc_pressure divides safely iff not so.
   */
  lemma DivisorPositiveIff(c: PressureCalib, tFine: int)
    requires InTemperatureRange(tFine)
    ensures var base := PressureBase(tFine); var d := PressureDivisor(Bits64, c, base);
      && d == PressureDivisor(Exact, c, base) && 0 <= d <= 87162
      && (d > 0 <==> c.p1 >= 2 || (c.p1 == 1 && PressureGain(Exact, c, base) >= 0))
  {
    hide S32, S64;
    var base := PressureBase(tFine);
    GainExact(c, base);
    var g := 32768 + PressureGain(Exact, c, base);
    ScaleDown(g, c.p1);
    FittingIsExact(g);
    FittingIsExact(g * c.p1);
  }

  lemma ScaleDown(g: int, p1: U16)
    requires 21955 <= g <= 43581
    ensures Fits64(g * p1) && 0 <= Shift(g * p1, 32768) <= 87162
    ensures Shift(g * p1, 32768) > 0 <==> p1 >= 2 || (p1 == 1 && g >= 32768)
  {
    ProductBound(g, 43581, p1, 65535);
    if p1 >= 2 {
      MonotoneProduct(2, p1, g);
    }
  }

  lemma OffsetExact(c: PressureCalib, base: int)
    requires -166400 <= base <= 166400
    ensures PressureOffset(Bits64, c, base) == PressureOffset(Exact, c, base)
    ensures -5000000000 <= PressureOffset(Exact, c, base) <= 5000000000
  {
    hide S32, S64;
    QuarterSquareExact(base, 2048);
    var square := QuarterSquare(Exact, base, 2048);
    assert 0 <= square <= 845000;
    ProductBound(square, 845000, c.p6, 128);
    ProductBound(base, 166400, c.p5, 32768);
    FittingIsExact(square * c.p6);
    FittingIsExact(base * c.p5);
    OffsetSum(square * c.p6, base * c.p5, c.p4);
  }

  lemma OffsetSum(x: int, y: int, p4: S16T)
    requires -108160000 <= x <= 108160000 && -5452595200 <= y <= 5452595200
    ensures var b := Shift(x, 4) + y * 2; var r := Shift(b, 4) + p4 * 65536;
      && W(Bits64, y * 2) == y * 2 && W(Bits64, b) == b && W(Bits64, p4 * 65536) == p4 * 65536
      && W(Bits64, r) == r && -5000000000 <= r <= 5000000000
  {
  }

  lemma DividendExact(offset: int, adc: int)
    requires -5000000000 <= offset <= 5000000000 && 0 <= adc < 0x10_0000
    ensures PressureDividend(Bits64, offset, adc) == PressureDividend(Unbounded, offset, adc)
    ensures 0 <= PressureDividend(Unbounded, offset, adc) < 0x1_0000_0000
  {
    hide S32, S64;
    var scaled := 1048576 - adc - Shift(offset, 4096);
    FittingIsExact(scaled);
    FittingIsExact(scaled * 3125);
  }

  lemma PressureSquareExact(pressed: int)
    requires 0 <= pressed <= 4294967295000
    ensures PressureSquare(Bits64, pressed) == PressureSquare(Exact, pressed)
    ensures 0 <= PressureSquare(Exact, pressed) <= 67108863744000
  {
    hide S32, S64;
    var e := Shift(pressed, 8192);
    ProductBound(e, 524287999, e, 524287999);
    MonotoneProduct(0, e, e);
    FittingIsExact(e * e);
  }

  /** The reading less the offset, before it is scaled and cast. */
  function ScaledReading(c: PressureCalib, tFine: int, adc: int): (r: int)
  {
    1048576 - adc - Shift(PressureOffset(Exact, c, PressureBase(tFine)), 4096)
  }

  /** The u32 cast of the dividend is exact if and only if the scaled reading is in this interval. */
  lemma DividendFitsIff(offset: int, adc: int)
    ensures PressureDividend(Unbounded, offset, adc) == PressureDividend(Exact, offset, adc) <==>
      0 <= 1048576 - adc - Shift(offset, 4096) <= 1374389
  {
  }

  lemma QuotientMonotone(x: nat, x': nat, d: int)
    requires x <= x' && d > 0
    ensures Quotient(x, d) <= Quotient(x', d)
  {
    if x / d >= x' / d + 1 {
      MonotoneProduct(x' / d + 1, x / d, d);
    }
  }

  lemma TermExact(k: int, kMax: int, x: int, xMax: int)
    requires -kMax <= k <= kMax && -xMax <= x <= xMax && kMax * xMax <= 0x2000_0000_0000_0000
    ensures W(Bits64, k * x) == k * x && -0x2000_0000_0000_0000 <= k * x <= 0x2000_0000_0000_0000
  {
    ProductBound(k, kMax, x, xMax);
  }

  lemma TailExact(c: PressureCalib, pressed: int)
    requires 0 <= pressed <= 4294967295000
    ensures PressureTail(Bits64, c, pressed) == PressureTail(Exact, c, pressed)
  {
    hide S32, S64, PressureSquare;
    var square := PressureSquare(Exact, pressed);
    PressureSquareExact(pressed);
    TermExact(c.p9, 32768, square, 67108863744000);
    TermExact(c.p8, 32768, pressed, 4294967295000);
    TermExact(c.p10, 255, pressed, 4294967295000);
    TailSum(c.p9 * square, c.p8 * pressed, c.p10 * pressed, c.p7, pressed);
  }

  lemma TailSum(x: int, y: int, z: int, p7: S8, pressed: int)
    requires -0x2000_0000_0000_0000 <= x <= 0x2000_0000_0000_0000
    requires -0x2000_0000_0000_0000 <= y <= 0x2000_0000_0000_0000
    requires -0x2000_0000_0000_0000 <= z <= 0x2000_0000_0000_0000 && 0 <= pressed <= 4294967295000
    ensures var a := Shift(x, 33554432); var b := Shift(y, 524288); var d := Shift(z, 281474976710656);
      && W(Bits64, a + b) == a + b && W(Bits64, a + b + d) == a + b + d
      && W(Bits64, a + b + d + p7 * 128) == a + b + d + p7 * 128
      && W(Bits64, pressed + Shift(a + b + d + p7 * 128, 16)) == pressed + Shift(a + b + d + p7 * 128, 16)
  {
  }

  lemma QuotientBound(x: nat, y: nat)
    requires y > 0
    ensures 0 <= Quotient(x, y) <= x
  {
    if x / y > x {
      MonotoneProduct(1, y, x / y);
    }
  }

  /** No step up to the division overflows, and the quotient is a u32 times 1000. */
  lemma PressedFits(c: PressureCalib, tFine: int, adc: int)
    requires InTemperatureRange(tFine) && c.p1 >= 2 && 0 <= adc < 0x10_0000
    ensures var base := PressureBase(tFine);
      && PressureDivisor(Bits64, c, base) == PressureDivisor(Unbounded, c, base) == PressureDivisor(Exact, c, base)
      && PressureDivisor(Exact, c, base) > 0
    ensures 0 <= Pressed(Bits64, c, tFine, adc) <= 4294967295000
    ensures Pressed(Bits64, c, tFine, adc) == Pressed(Unbounded, c, tFine, adc)
  {
    hide S32, S64, PressureDivisor, PressureOffset, PressureDividend;
    var base := PressureBase(tFine);
    DivisorPositiveIff(c, tFine);
    OffsetExact(c, base);
    UnboundedIsExact(c, base, 0);
    var dividend := PressureDividend(Unbounded, PressureOffset(Exact, c, base), adc);
    DividendExact(PressureOffset(Exact, c, base), adc);
    var d := PressureDivisor(Exact, c, base);
    QuotientBound(dividend, d);
    FittingIsExact(Quotient(dividend, d) * 1000);
  }

  /** With par_p1 >= 2 nothing in calc_pressure overflows s64: it is its formula, with its two casts. */
  lemma PressureFits(c: PressureCalib, tFine: int, adc: int)
    requires InTemperatureRange(tFine) && c.p1 >= 2 && 0 <= adc < 0x10_0000
    ensures PressureDivisor(Bits64, c, PressureBase(tFine)) > 0
    ensures PressureDivisor(Unbounded, c, PressureBase(tFine)) > 0
    ensures Pressure(Bits64, c, tFine, adc) == Pressure(Unbounded, c, tFine, adc)
  {
    hide S32, S64, PressureDivisor, PressureTail, Pressed;
    PressedFits(c, tFine, adc);
    TailExact(c, Pressed(Bits64, c, tFine, adc));
    UnboundedIsExact(c, PressureBase(tFine), Pressed(Bits64, c, tFine, adc));
  }

  /** Where the cast of the dividend is exact, so is everything up to the division. */
  lemma PressedExact(c: PressureCalib, tFine: int, adc: int)
    requires InTemperatureRange(tFine) && c.p1 >= 2 && 0 <= adc < 0x10_0000
    requires 0 <= ScaledReading(c, tFine, adc) <= 1374389
    ensures PressureDivisor(Bits64, c, PressureBase(tFine)) > 0
    ensures PressureDivisor(Exact, c, PressureBase(tFine)) > 0
    ensures Pressed(Bits64, c, tFine, adc) == Pressed(Exact, c, tFine, adc)
  {
    hide S32, S64, PressureDivisor, PressureOffset, PressureDividend;
    var base := PressureBase(tFine);
    PressedFits(c, tFine, adc);
    UnboundedIsExact(c, base, 0);
    DividendFitsIff(PressureOffset(Exact, c, base), adc);
  }

  /**
   Where the cast of the dividend is exact too, calc_pressure is the formula on unbounded integers
   and without casts if and only if the value of that formula is a u32.
   */
  lemma PressureExact(c: PressureCalib, tFine: int, adc: int)
    requires InTemperatureRange(tFine) && c.p1 >= 2 && 0 <= adc < 0x10_0000
    requires 0 <= ScaledReading(c, tFine, adc) <= 1374389
    ensures PressureDivisor(Bits64, c, PressureBase(tFine)) > 0
    ensures PressureDivisor(Exact, c, PressureBase(tFine)) > 0
    ensures Pressure(Bits64, c, tFine, adc) == Pressure(Exact, c, tFine, adc) <==>
      0 <= Pressure(Exact, c, tFine, adc) < 0x1_0000_0000
  {
    hide S32, S64, PressureDivisor, PressureTail, Pressed, ScaledReading;
    PressedFits(c, tFine, adc);
    PressedExact(c, tFine, adc);
    TailExact(c, Pressed(Bits64, c, tFine, adc));
  }

  /** The square in the tail against the value itself. */
  lemma SquareBounds(pressed: int)
    requires 0 <= pressed <= 4294967295000
    ensures 0 <= 8 * PressureSquare(Exact, pressed) <= 125 * pressed
    ensures pressed <= 4278000000 ==> PressureSquare(Exact, pressed) <= 66600000
    ensures pressed < 65536 ==> PressureSquare(Exact, pressed) == 0
  {
    var e := Shift(pressed, 8192);
    MonotoneProduct(0, e, e);
    MonotoneProduct(e, 524288000, e);
    if pressed <= 4278000000 {
      ProductBound(e, 522217, e, 522217);
    }
    if pressed < 65536 {
      ProductBound(e, 7, e, 7);
    }
  }

  /** The two middle terms of the tail by their factors. */
  lemma FactorBounds(p: S16T, x: nat)
    ensures -32768 * x <= p * x <= 32767 * x
  {
    MonotoneProduct(-32768, p, x);
    MonotoneProduct(p, 32767, x);
  }

  /** Where the value after the division makes the last cast exact, but for the two smallest values. */
  lemma TailRange(c: PressureCalib, pressed: int)
    requires 0 <= pressed <= 4294967295000
    ensures 2000 <= pressed ==> 0 <= PressureTail(Exact, c, pressed)
    ensures pressed <= 4278000000 ==> PressureTail(Exact, c, pressed) < 0x1_0000_0000
    ensures 4320000000 <= pressed ==> 0x1_0000_0000 <= PressureTail(Exact, c, pressed)
  {
    hide PressureSquare;
    var square := PressureSquare(Exact, pressed);
    SquareBounds(pressed);
    FactorBounds(c.p9, square);
    FactorBounds(c.p8, pressed);
    MonotoneProduct(0, c.p10, pressed);
    MonotoneProduct(c.p10, 255, pressed);
    TailRangeSum(c.p9 * square, c.p8 * pressed, c.p10 * pressed, c.p7, pressed, square);
  }

  lemma TailRangeSum(x: int, y: int, z: int, p7: S8, pressed: int, square: int)
    requires 0 <= pressed <= 4294967295000 && 0 <= 8 * square <= 125 * pressed
    requires pressed <= 4278000000 ==> square <= 66600000
    requires -32768 * square <= x <= 32767 * square && -32768 * pressed <= y <= 32767 * pressed
    requires 0 <= z <= 255 * pressed
    ensures var r := pressed + Shift(Shift(x, 33554432) + Shift(y, 524288) + Shift(z, 281474976710656) + p7 * 128, 16);
      && (2000 <= pressed ==> 0 <= r)
      && (pressed <= 4278000000 ==> r < 0x1_0000_0000)
      && (4320000000 <= pressed ==> 0x1_0000_0000 <= r)
  {
  }

  /** The two smallest values after the division: par_p7, and at the edge par_p8, decide the sign. */
  lemma SmallTail(c: PressureCalib)
    ensures 0 <= PressureTail(Exact, c, 0) < 0x1_0000_0000 <==> c.p7 >= 0
    ensures 0 <= PressureTail(Exact, c, 1000) < 0x1_0000_0000 <==> c.p7 >= -124 || (c.p7 == -125 && c.p8 >= 0)
  {
  }

  /**
   When a caller can rely on the last cast. Pressed is a multiple of 1000. Up to 4278000000 the
   result is exact if and only if Pressed is at least 2000, or par_p7 is not too negative for it;
   from 4320000000 it never is.
   */
  lemma PressureExactIff(c: PressureCalib, tFine: int, adc: int)
    requires InTemperatureRange(tFine) && c.p1 >= 2 && 0 <= adc < 0x10_0000
    requires 0 <= ScaledReading(c, tFine, adc) <= 1374389
    ensures PressureDivisor(Bits64, c, PressureBase(tFine)) > 0
    ensures PressureDivisor(Exact, c, PressureBase(tFine)) > 0
    ensures var pressed := Pressed(Bits64, c, tFine, adc);
      && (pressed <= 4278000000 ==>
            (Pressure(Bits64, c, tFine, adc) == Pressure(Exact, c, tFine, adc) <==>
             || pressed >= 2000 || (pressed == 0 && c.p7 >= 0)
             || (pressed == 1000 && (c.p7 >= -124 || (c.p7 == -125 && c.p8 >= 0)))))
      && (pressed >= 4320000000 ==> Pressure(Bits64, c, tFine, adc) != Pressure(Exact, c, tFine, adc))
  {
    hide S32, S64, PressureDivisor, PressureTail, ScaledReading;
    PressedFits(c, tFine, adc);
    PressedThousands(c, tFine, adc);
    PressedExact(c, tFine, adc);
    PressureExact(c, tFine, adc);
    TailRange(c, Pressed(Bits64, c, tFine, adc));
    SmallTail(c);
  }

  lemma PressedThousands(c: PressureCalib, tFine: int, adc: int)
    requires InTemperatureRange(tFine) && c.p1 >= 2 && 0 <= adc < 0x10_0000
    ensures PressureDivisor(Bits64, c, PressureBase(tFine)) > 0
    ensures Pressed(Bits64, c, tFine, adc) % 1000 == 0
  {
    hide S32, S64, PressureDivisor, PressureDividend, PressureOffset;
    PressedFits(c, tFine, adc);
    var base := PressureBase(tFine);
    var dividend := PressureDividend(Unbounded, PressureOffset(Unbounded, c, base), adc);
    var d := PressureDivisor(Unbounded, c, base);
    assert Pressed(Unbounded, c, tFine, adc) == Quotient(dividend, d) * 1000;
    Thousands(Quotient(dividend, d));
  }

  lemma Thousands(q: int)
    ensures q * 1000 % 1000 == 0
  {
  }

  /** With only par_p1 and par_p7 set, the formula is two divisions and a constant. */
  lemma PlainPressure(c: PressureCalib, base: int, pressed: int)
    requires c == PressureCalib(c.p1, 0, 0, 0, 0, 0, c.p7, 0, 0, 0)
    ensures PressureOffset(Exact, c, base) == 0 && PressureDivisor(Exact, c, base) == c.p1
    ensures PressureTail(Exact, c, pressed) == pressed + c.p7 * 8
  {
  }

  /** The last cast does wrap: with a small par_p1 the value is beyond u32. */
  lemma PressureCanWrap(c: PressureCalib)
    requires c == PressureCalib(2, 0, 0, 0, 0, 0, 0, 0, 0, 0)
    ensures PressureDivisor(Bits64, c, PressureBase(0)) > 0 && PressureDivisor(Exact, c, PressureBase(0)) > 0
    ensures Pressure(Exact, c, 0, 0) == 1638400000000 != Pressure(Bits64, c, 0, 0)
  {
    hide S32, S64, PressureDivisor, PressureOffset, PressureTail;
    PlainPressure(c, PressureBase(0), 1638400000000);
    PressureExact(c, 0, 0);
  }

  /** It also wraps below zero: a reading near its maximum with a negative par_p7 becomes a huge pressure. */
  lemma PressureCanGoNegative(c: PressureCalib, adc: int)
    requires c == PressureCalib(36000, 0, 0, 0, 0, 0, -128, 0, 0, 0) && adc == 1048575
    ensures PressureDivisor(Bits64, c, PressureBase(0)) > 0 && PressureDivisor(Exact, c, PressureBase(0)) > 0
    ensures Pressure(Exact, c, 0, adc) == -1024 && Pressure(Bits64, c, 0, adc) == 4294966272
  {
    hide S32, S64, PressureDivisor, PressureOffset, PressureTail;
    PlainPressure(c, PressureBase(0), 0);
    PressedExact(c, 0, adc);
    TailExact(c, 0);
  }

  /** Where the cast of the dividend is exact, a higher reading never means a higher pressure. */
  lemma PressedFalls(c: PressureCalib, tFine: int, adc: int, adc': int)
    requires InTemperatureRange(tFine) && c.p1 >= 2 && 0 <= adc <= adc' < 0x10_0000
    requires ScaledReading(c, tFine, adc) <= 1374389 && 0 <= ScaledReading(c, tFine, adc')
    ensures PressureDivisor(Bits64, c, PressureBase(tFine)) > 0
    ensures 0 <= Pressed(Bits64, c, tFine, adc') <= Pressed(Bits64, c, tFine, adc)
  {
    hide S32, S64, PressureOffset, PressureDivisor;
    var base := PressureBase(tFine);
    PressedFits(c, tFine, adc');
    PressedExact(c, tFine, adc);
    PressedExact(c, tFine, adc');
    var offset := PressureOffset(Exact, c, base);
    QuotientMonotone(PressureDividend(Exact, offset, adc'), PressureDividend(Exact, offset, adc),
                     PressureDivisor(Exact, c, base));
  }

  // ---------------------------------------------------------------- humidity

  datatype HumidityCalib = HumidityCalib(h1: U16, h2: U16, h3: S8, h4: S8, h5: S8, h6: U8, h7: S8)

  function Scaled(width: Width, ts: int, h: int): (r: int)
  {
    Quotient(W(width, ts * h), 100)
  }

  function HumidityVar1(width: Width, c: HumidityCalib, ts: int, adc: U16): (r: int)
  {
    W(width, W(width, adc - W(width, c.h1 * 16)) - Shift(Scaled(width, ts, c.h3), 2))
  }

  function HumidityVar2(width: Width, c: HumidityCalib, ts: int): (r: int)
  {
    var bend := Quotient(Shift(W(width, ts * Scaled(width, ts, c.h5)), 64), 100);
    Shift(W(width, c.h2 * W(width, W(width, Scaled(width, ts, c.h4) + bend) + 16384)), 1024)
  }

  function HumidityVar4(width: Width, c: HumidityCalib, ts: int): (r: int)
  {
    Shift(W(width, W(width, c.h6 * 128) + Scaled(width, ts, c.h7)), 16)
  }

  /** From var3 and var4 to the uncapped result. */
  function HumidityTail(width: Width, var3: int, var4: int): (r: int)
  {
    var var5 := Shift(W(width, Shift(var3, 16384) * Shift(var3, 16384)), 1024);
    var var6 := Shift(W(width, var4 * var5), 2);
    Shift(W(width, Shift(W(width, var3 + var6), 1024) * 1000), 4096)
  }

  function Capped(x: int): (r: int)
    ensures 0 <= r <= 100000
  {
    if x > 100000 then 100000 else if x < 0 then 0 else x
  }

  function TempScaled(width: Width, tFine: int): (r: int)
  {
    Shift(W(width, W(width, tFine * 5) + 128), 256)
  }

  /** calc_humidity in words of the given width. */
  function Humidity(width: Width, c: HumidityCalib, tFine: int, adc: U16): (r: int)
  {
    var ts := TempScaled(width, tFine);
    var var3 := W(width, HumidityVar1(width, c, ts, adc) * HumidityVar2(width, c, ts));
    Capped(HumidityTail(width, var3, HumidityVar4(width, c, ts)))
  }

  // The exact values of all 32-bit intermediates of the functions above fit.

  predicate TempScaledFits(tFine: int)
  {
    Fits32(tFine * 5) && Fits32(tFine * 5 + 128)
  }

  predicate HumidityVar1Fits(c: HumidityCalib, ts: int, adc: U16)
  {
    && Fits32(c.h1 * 16) && Fits32(adc - c.h1 * 16) && Fits32(ts * c.h3)
    && Fits32(adc - c.h1 * 16 - Shift(Scaled(Exact, ts, c.h3), 2))
  }

  predicate HumidityVar2Fits(c: HumidityCalib, ts: int)
  {
    var bent := ts * Scaled(Exact, ts, c.h5);
    var sum := Scaled(Exact, ts, c.h4) + Quotient(Shift(bent, 64), 100);
    && Fits32(ts * c.h4) && Fits32(ts * c.h5) && Fits32(bent)
    && Fits32(sum) && Fits32(sum + 16384) && Fits32(c.h2 * (sum + 16384))
  }

  predicate HumidityVar4Fits(c: HumidityCalib, ts: int)
  {
    Fits32(c.h6 * 128) && Fits32(ts * c.h7) && Fits32(c.h6 * 128 + Scaled(Exact, ts, c.h7))
  }

  predicate HumidityTailFits(var3: int, var4: int)
  {
    var square := Shift(var3, 16384) * Shift(var3, 16384);
    var product := var4 * Shift(square, 1024);
    var sum := var3 + Shift(product, 2);
    Fits32(square) && Fits32(product) && Fits32(sum) && Fits32(Shift(sum, 1024) * 1000)
  }

  /** var3 of calc_humidity on unbounded integers. */
  function HumidityProduct(c: HumidityCalib, tFine: int, adc: U16): (r: int)
  {
    var ts := TempScaled(Exact, tFine);
    HumidityVar1(Exact, c, ts, adc) * HumidityVar2(Exact, c, ts)
  }

  predicate HumidityFits(c: HumidityCalib, tFine: int, adc: U16)
  {
    var ts := TempScaled(Exact, tFine);
    && TempScaledFits(tFine) && HumidityVar1Fits(c, ts, adc) && HumidityVar2Fits(c, ts) && HumidityVar4Fits(c, ts)
    && Fits32(HumidityProduct(c, tFine, adc))
    && HumidityTailFits(HumidityProduct(c, tFine, adc), HumidityVar4(Exact, c, ts))
  }

  /** Calibration as it is unpacked, and a temperature from -40 to 85 degrees in calc_humidity's scale. */
  predicate HumidityInRange(c: HumidityCalib, tFine: int)
  {
    -2228224 <= tFine <= 2228224 && -4000 <= TempScaled(Exact, tFine) <= 8500 && c.h1 <= 4095 && c.h2 <= 4095
  }

  lemma ScaledExact(ts: int, h: S8)
    requires -4000 <= ts <= 8500
    ensures Fits32(ts * h)
    ensures Scaled(Bits32, ts, h) == Scaled(Exact, ts, h) && -10880 <= Scaled(Exact, ts, h) <= 10880
  {
    hide S32, S64;
    ProductBound(ts, 8500, h, 128);
    FittingIsExact(ts * h);
  }

  lemma HumidityVar1Exact(c: HumidityCalib, ts: int, adc: U16)
    requires -4000 <= ts <= 8500 && c.h1 <= 4095
    ensures HumidityVar1Fits(c, ts, adc)
    ensures HumidityVar1(Bits32, c, ts, adc) == HumidityVar1(Exact, c, ts, adc)
  {
    hide S32, S64, Scaled;
    ScaledExact(ts, c.h3);
    var a := adc - c.h1 * 16;
    FittingIsExact(c.h1 * 16);
    FittingIsExact(a);
    FittingIsExact(a - Shift(Scaled(Exact, ts, c.h3), 2));
  }

  lemma HumidityVar2Exact(c: HumidityCalib, ts: int)
    requires -4000 <= ts <= 8500 && c.h2 <= 4095
    ensures HumidityVar2Fits(c, ts)
    ensures HumidityVar2(Bits32, c, ts) == HumidityVar2(Exact, c, ts)
  {
    hide S32, S64, Scaled;
    ScaledExact(ts, c.h4);
    ScaledExact(ts, c.h5);
    var bent := ts * Scaled(Exact, ts, c.h5);
    ProductBound(ts, 8500, Scaled(Exact, ts, c.h5), 10880);
    FittingIsExact(bent);
    var sum := Scaled(Exact, ts, c.h4) + Quotient(Shift(bent, 64), 100);
    BendSum(bent, Scaled(Exact, ts, c.h4));
    FittingIsExact(sum);
    FittingIsExact(sum + 16384);
    ProductBound(c.h2, 4095, sum + 16384, 41715);
    FittingIsExact(c.h2 * (sum + 16384));
  }

  lemma BendSum(x: int, scaled: int)
    requires -92480000 <= x <= 92480000 && -10880 <= scaled <= 10880
    ensures -41715 <= scaled + Quotient(Shift(x, 64), 100) + 16384 <= 41715
  {
  }

  lemma HumidityVar4Exact(c: HumidityCalib, ts: int)
    requires -4000 <= ts <= 8500
    ensures HumidityVar4Fits(c, ts)
    ensures HumidityVar4(Bits32, c, ts) == HumidityVar4(Exact, c, ts)
    ensures -680 <= HumidityVar4(Exact, c, ts) <= 2720
  {
    hide S32, S64, Scaled;
    ScaledExact(ts, c.h7);
    FittingIsExact(c.h6 * 128);
    FittingIsExact(c.h6 * 128 + Scaled(Exact, ts, c.h7));
  }

  lemma TempScaledExact(tFine: int)
    requires -2228224 <= tFine <= 2228224
    ensures TempScaledFits(tFine) && TempScaled(Bits32, tFine) == TempScaled(Exact, tFine)
  {
    hide S32, S64;
    FittingIsExact(tFine * 5);
    FittingIsExact(tFine * 5 + 128);
  }

  lemma HumidityTailExact(var3: int, var4: int)
    requires HumidityTailFits(var3, var4)
    ensures HumidityTail(Bits32, var3, var4) == HumidityTail(Exact, var3, var4)
  {
    hide S32, S64;
    var square := Shift(var3, 16384) * Shift(var3, 16384);
    var product := var4 * Shift(square, 1024);
    var sum := var3 + Shift(product, 2);
    FittingIsExact(square);
    FittingIsExact(product);
    FittingIsExact(sum);
    FittingIsExact(Shift(sum, 1024) * 1000);
  }

  lemma SquareFitsIff(q: int)
    ensures Fits32(q * q) <==> -46340 <= q <= 46340
    ensures -46340 <= q <= 46340 ==> 0 <= q * q <= 2147395600
  {
    var a := if q >= 0 then q else -q;
    assert q * q == a * a;
    if a <= 46340 {
      MonotoneProduct(a, 46340, a);
      MonotoneProduct(0, a, a);
      MonotoneProduct(a, 46340, 46340);
    } else {
      MonotoneProduct(46341, a, a);
      MonotoneProduct(46341, a, 46341);
    }
  }

  /** Nothing overflows in the tail if and only if the square and the product with var4 do not. */
  lemma HumidityTailFitsIff(var3: int, var4: int)
    ensures Fits32(var3) && HumidityTailFits(var3, var4) <==>
      && -759234560 <= var3 < 759250944
      && Fits32(var4 * Shift(Shift(var3, 16384) * Shift(var3, 16384), 1024))
  {
    SquareFitsIff(Shift(var3, 16384));
    var product := var4 * Shift(Shift(var3, 16384) * Shift(var3, 16384), 1024);
    if -759234560 <= var3 < 759250944 && Fits32(product) {
      TailSumFits(var3, product);
    }
  }

  lemma TailSumFits(var3: int, product: int)
    requires -759234560 <= var3 < 759250944 && Fits32(product)
    ensures var sum := var3 + Shift(product, 2); Fits32(sum) && Fits32(Shift(sum, 1024) * 1000)
  {
  }

  /**
   No 32-bit intermediate of calc_humidity overflows if and only if var1 * var2 is in this interval
   and its scaled square times var4 is an s32.
   */
  lemma HumidityFitsIff(c: HumidityCalib, tFine: int, adc: U16)
    requires HumidityInRange(c, tFine)
    ensures var p := HumidityProduct(c, tFine, adc); var var4 := HumidityVar4(Exact, c, TempScaled(Exact, tFine));
      HumidityFits(c, tFine, adc) <==>
        -759234560 <= p < 759250944 && Fits32(var4 * Shift(Shift(p, 16384) * Shift(p, 16384), 1024))
  {
    hide TempScaled, HumidityProduct, HumidityVar1Fits, HumidityVar2Fits, HumidityVar4Fits, HumidityTailFits;
    var ts := TempScaled(Exact, tFine);
    TempScaledExact(tFine);
    HumidityVar1Exact(c, ts, adc);
    HumidityVar2Exact(c, ts);
    HumidityVar4Exact(c, ts);
    HumidityTailFitsIff(HumidityProduct(c, tFine, adc), HumidityVar4(Exact, c, ts));
  }

  /** On that condition calc_humidity is the capped formula on unbounded integers. */
  lemma HumidityExact(c: HumidityCalib, tFine: int, adc: U16)
    requires HumidityInRange(c, tFine)
    requires var p := HumidityProduct(c, tFine, adc); var var4 := HumidityVar4(Exact, c, TempScaled(Exact, tFine));
      -759234560 <= p < 759250944 && Fits32(var4 * Shift(Shift(p, 16384) * Shift(p, 16384), 1024))
    ensures Humidity(Bits32, c, tFine, adc) == Humidity(Exact, c, tFine, adc)
  {
    hide S32, S64, TempScaled, HumidityVar1, HumidityVar2, HumidityVar4, HumidityTail, HumidityTailFits;
    var ts := TempScaled(Exact, tFine);
    TempScaledExact(tFine);
    HumidityVar1Exact(c, ts, adc);
    HumidityVar2Exact(c, ts);
    HumidityVar4Exact(c, ts);
    var var3 := HumidityProduct(c, tFine, adc);
    FittingIsExact(var3);
    HumidityTailFitsIff(var3, HumidityVar4(Exact, c, ts));
    HumidityTailExact(var3, HumidityVar4(Exact, c, ts));
  }

  /** Whatever the calibration, a product of at most 465000000 is small enough. */
  lemma SmallProductFits(c: HumidityCalib, tFine: int, adc: U16)
    requires HumidityInRange(c, tFine) && -465000000 <= HumidityProduct(c, tFine, adc) <= 465000000
    ensures HumidityFits(c, tFine, adc)
  {
    hide HumidityProduct, HumidityVar4, HumidityFits;
    var var4 := HumidityVar4(Exact, c, TempScaled(Exact, tFine));
    HumidityVar4Exact(c, TempScaled(Exact, tFine));
    var q := Shift(HumidityProduct(c, tFine, adc), 16384);
    SquareFitsIff(q);
    ProductBound(q, 28382, q, 28382);
    ProductBound(var4, 2720, Shift(q * q, 1024), 786658);
    HumidityFitsIff(c, tFine, adc);
  }

  /** With only par_h2 set, at t_fine zero, the formula is a product and a scaling. */
  lemma DryVar2(width: Width, c: HumidityCalib)
    requires c.h2 == 4080 && c.h4 == c.h5 == 0 && width != Bits64
    ensures HumidityVar2(width, c, 0) == 65280
  {
    hide Scaled;
    DryScaled(width);
  }

  lemma DryTail(width: Width, var3: int)
    ensures HumidityTail(width, var3, 0) == Shift(W(width, Shift(W(width, var3), 1024) * 1000), 4096)
  {
    var var5 := Shift(W(width, Shift(var3, 16384) * Shift(var3, 16384)), 1024);
    assert 0 * var5 == 0;
  }

  lemma DryHumidity(width: Width, c: HumidityCalib, adc: U16)
    requires c == HumidityCalib(0, 4080, 0, 0, 0, 0, 0) && width != Bits64
    ensures Humidity(width, c, 0, adc) ==
      Capped(Shift(W(width, Shift(W(width, W(width, adc * 65280)), 1024) * 1000), 4096))
  {
    hide HumidityVar2, HumidityTail, HumidityVar1, HumidityVar4, TempScaled;
    DryVar2(width, c);
    DryTail(width, W(width, adc * 65280));
    DrySides(width, c, adc);
  }

  lemma DrySides(width: Width, c: HumidityCalib, adc: U16)
    requires c == HumidityCalib(0, 4080, 0, 0, 0, 0, 0) && width != Bits64
    ensures TempScaled(width, 0) == 0 && HumidityVar1(width, c, 0, adc) == adc && HumidityVar4(width, c, 0) == 0
  {
    hide HumidityVar1, HumidityVar4;
    DryVar1(width, c, adc);
    DryVar4(width, c);
  }

  lemma DryVar1(width: Width, c: HumidityCalib, adc: U16)
    requires c.h1 == c.h3 == 0 && width != Bits64
    ensures HumidityVar1(width, c, 0, adc) == adc
  {
    hide Scaled;
    DryScaled(width);
  }

  lemma DryVar4(width: Width, c: HumidityCalib)
    requires c.h6 == c.h7 == 0
    ensures HumidityVar4(width, c, 0) == 0
  {
    hide Scaled;
    DryScaled(width);
  }

  lemma DryScaled(width: Width)
    ensures Scaled(width, 0, 0) == 0
  {
  }

  /** A product of 65535 * 65280 is far above 100 %. */
  lemma DryExact(c: HumidityCalib, adc: U16)
    requires c == HumidityCalib(0, 4080, 0, 0, 0, 0, 0) && adc == 65535
    ensures Humidity(Exact, c, 0, adc) == 100000
  {
    hide Humidity;
    DryHumidity(Exact, c, adc);
  }

  /** 65535 * 65280 is -16842496 as an s32, so the scaled result is negative. */
  lemma DryResult(p: int)
    requires p == 65535 * 65280
    ensures S32(p) == S32(-16842496) == -16842496 && Shift(S32(Shift(-16842496, 1024) * 1000), 4096) < 0
  {
    assert S32(p) == -16842496;
    assert Shift(-16842496, 1024) == -16448;
    assert S32(-16448000) == -16448000;
  }

  lemma DryBits32(c: HumidityCalib, adc: U16)
    requires c == HumidityCalib(0, 4080, 0, 0, 0, 0, 0) && adc == 65535
    ensures Humidity(Bits32, c, 0, adc) == 0
  {
    hide Humidity, S32, Shift;
    DryHumidity(Bits32, c, adc);
    DryResult(adc * 65280);
  }

  /** The s32 arithmetic does go wrong: from these bytes full humidity is reported as none. */
  lemma HumidityCanWrap(msb: U8, lsb: U8, c: HumidityCalib, adc: U16)
    requires msb == 255 && lsb == 0 && adc == 65535
    requires c == HumidityCalib(UnpackH1(lsb), UnpackH2(msb, lsb), 0, 0, 0, 0, 0)
    ensures Humidity(Exact, c, 0, adc) == 100000 && Humidity(Bits32, c, 0, adc) == 0
  {
    hide Humidity;
    DryExact(c, adc);
    DryBits32(c, adc);
  }
}
