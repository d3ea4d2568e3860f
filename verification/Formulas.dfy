/**
 The polynomials that calc_temperature, calc_pressure and calc_humidity approximate, scaled to
 integers, and how far rounding takes each of them away. Nothing here mentions a shift.
 */
module Formulas {
  import opened Compensation

  const TWO15: int := 0x8000
  const TWO17: int := 0x2_0000
  const TWO19: int := 0x8_0000
  const TWO30: int := 0x4000_0000
  const TWO31: int := 0x8000_0000
  const TWO33: int := 0x2_0000_0000
  const TWO48: int := 0x1_0000_0000_0000
  const TWO63: int := 0x8000_0000_0000_0000
  const TWO67: int := 0x8_0000_0000_0000_0000

  predicate Within(x: int, low: int, high: int)
  {
    low <= x <= high
  }

  // ---------------------------------------------------------------- rounding

  /** The shift rounds down, the C quotient towards zero. */
  lemma ShiftFloors(x: int, power: int)
    requires power > 0
    ensures power * Shift(x, power) <= x < power * Shift(x, power) + power
  {
  }

  lemma QuotientTruncates(x: int, y: int)
    requires y > 0
    ensures x >= 0 ==> 0 <= y * Quotient(x, y) <= x < y * Quotient(x, y) + y
    ensures x < 0 ==> y * Quotient(x, y) - y < x <= y * Quotient(x, y) <= 0
  {
    hide Shift;
    if x >= 0 {
      ShiftFloors(x, y);
      QuotientOfNat(x, y);
      ShiftOfNat(x, y);
    } else {
      ShiftFloors(-x, y);
      QuotientOfNegative(x, y);
      ShiftOfNat(-x, y);
      assert y * -Shift(-x, y) == -(y * Shift(-x, y));
    }
  }

  lemma QuotientOfNat(x: int, y: int)
    requires 0 <= x && 0 < y
    ensures Quotient(x, y) == Shift(x, y)
  {
  }

  lemma QuotientOfNegative(x: int, y: int)
    requires x < 0 < y
    ensures Quotient(x, y) == -Shift(-x, y)
  {
  }

  lemma ShiftOfNat(x: int, y: int)
    requires 0 <= x && 0 < y
    ensures 0 <= y * Shift(x, y)
  {
    MonotoneProduct(0, Shift(x, y), y);
  }

  /** A cast keeps a value modulo the size of the type and gives one that fits. */
  lemma CastsWrap(x: int)
    ensures -0x8000 <= S16(x) < 0x8000 && (S16(x) - x) % 0x1_0000 == 0
    ensures Fits32(S32(x)) && (S32(x) - x) % 0x1_0000_0000 == 0
    ensures Fits64(S64(x)) && (S64(x) - x) % 0x1_0000_0000_0000_0000 == 0
    ensures 0 <= U32(x) < 0x1_0000_0000 && (U32(x) - x) % 0x1_0000_0000 == 0
  {
  }

  /** An error times a factor. */
  lemma TimesError(x: int, y: int, low: int, high: int, k: int, kMax: int)
    requires 0 <= low && 0 <= high && 0 <= kMax
    requires -low <= x - y <= high && -kMax <= k <= kMax
    ensures var e := if low > high then low else high; -(e * kMax) <= x * k - y * k <= e * kMax
  {
    var e := if low > high then low else high;
    ProductBound(x - y, e, k, kMax);
    assert (x - y) * k == x * k - y * k;
  }

  /** The error of a square. */
  lemma SquareError(x: int, y: int, gap: int, yMax: int)
    requires 0 <= gap && 0 <= yMax
    requires y - gap <= x <= y && -yMax <= y <= yMax
    ensures -(gap * (2 * yMax + gap)) <= x * x - y * y <= gap * (2 * yMax + gap)
  {
    assert x * x - y * y == (x - y) * (x + y);
    ProductBound(x - y, gap, x + y, 2 * yMax + gap);
  }

  // ---------------------------------------------------------------- temperature

  /** 2^30 * t_fine, with the reading less par_t1 in sixteenths. */
  function TFinePoly(t1: U16, t2: S16T, t3: S8, adc: int): (r: int)
  {
    var v := adc - 16 * t1;
    0x1_0000 * (v * t2) + v * v * t3
  }

  lemma LinearNear(t1: U16, t2: S16T, adc: int)
    requires 0 <= adc < 0x10_0000
    ensures Within(16384 * Linear(Var1(t1, adc), t2) - (adc - 16 * t1) * t2, -245752, 229376)
  {
    var v, var1 := adc - 16 * t1, Var1(t1, adc);
    assert v - 7 <= 8 * var1 <= v;
    TimesError(8 * var1, v, 7, 0, t2, 32768);
    assert 8 * var1 * t2 == 8 * (var1 * t2);
    ShiftFloors(var1 * t2, 2048);
  }

  lemma SquareNear(t1: U16, adc: int)
    requires 0 <= adc < 0x10_0000
    ensures var v := adc - 16 * t1;
      Within(0x10_0000 * Square(Shift(Var1(t1, adc), 2)) - v * v, -32505825, 31457505)
  {
    var v, half := adc - 16 * t1, Shift(Var1(t1, adc), 2);
    assert v - 15 <= 16 * half <= v;
    SquareError(16 * half, v, 15, 1048576);
    assert 16 * half * (16 * half) == 256 * (half * half);
    ShiftFloors(half * half, 4096);
  }

  lemma QuadraticNear(square: int, v2: int, t3: S8)
    requires Within(0x10_0000 * square - v2, -32505825, 31457505)
    ensures Within(TWO30 * Quadratic(square, t3) - v2 * t3, -5234421888, 4160745600)
  {
    TimesError(0x10_0000 * square, v2, 32505825, 31457505, t3, 128);
    assert 0x10_0000 * square * t3 == 0x1_0000 * (square * (t3 * 16));
    ShiftFloors(square * (t3 * 16), 16384);
  }

  /** t_fine is within 20 of its formula, in units of 1/5120 degree, for every frame and calibration. */
  lemma TFineNear(t1: U16, t2: S16T, t3: S8, adc: int)
    requires 0 <= adc < 0x10_0000
    ensures Within(TWO30 * TFine(t1, t2, t3, adc) - TFinePoly(t1, t2, t3, adc), -20 * TWO30, 20 * TWO30)
  {
    hide Linear, Square, Quadratic, Var1, Shift;
    var v := adc - 16 * t1;
    LinearNear(t1, t2, adc);
    SquareNear(t1, adc);
    QuadraticNear(Square(Shift(Var1(t1, adc), 2)), v * v, t3);
  }

  /** The returned value is t_fine in hundredths of a degree, rounded to the nearest. */
  lemma CentidegreesRound(tFine: int)
    ensures -128 < 256 * Centidegrees(tFine) - 5 * tFine <= 128
  {
  }

  // ---------------------------------------------------------------- pressure

  /** 2^33 times what calc_pressure adds to 32768 before it scales by par_p1. */
  function GainPoly(c: PressureCalib, base: int): (r: int)
  {
    base * base * c.p3 + 16384 * (c.p2 * base)
  }

  /** 2^19 times the offset of the reading. */
  function OffsetPoly(c: PressureCalib, base: int): (r: int)
  {
    base * base * c.p6 + 0x4_0000 * (base * c.p5) + 0x8_0000_0000 * c.p4
  }

  lemma QuarterSquareNear(base: int, power: int)
    requires -166400 <= base <= 166400 && power > 0
    ensures Within(16 * power * QuarterSquare(Exact, base, power) - base * base, -998409 - 16 * (power - 1), 998409)
  {
    var quarter := Shift(base, 4);
    ShiftFloors(base, 4);
    SquareError(4 * quarter, base, 3, 166400);
    assert 4 * quarter * (4 * quarter) == 16 * (quarter * quarter);
    ShiftFloors(quarter * quarter, power);
    var r := Shift(quarter * quarter, power);
    assert 16 * power * r == 16 * (power * r);
  }

  lemma GainNear(c: PressureCalib, base: int)
    requires -166400 <= base <= 166400
    ensures Within(TWO33 * PressureGain(Exact, c, base) - GainPoly(c, base), -8734489728, 144587904)
  {
    hide QuarterSquare;
    QuarterSquareNear(base, 8192);
    var square := QuarterSquare(Exact, base, 8192);
    TimesError(TWO17 * square, base * base, 1129465, 998409, c.p3, 128);
    assert TWO17 * square * c.p3 == TWO17 * (square * c.p3);
    assert square * (c.p3 * 32) == 32 * (square * c.p3);
    GainSumNear(square * c.p3, c.p2 * base);
  }

  lemma GainSumNear(x: int, y: int)
    ensures Within(TWO33 * Shift(Shift(32 * x, 8) + Shift(y, 2), 262144) - (TWO17 * x + 16384 * y), -8589918208, 0)
  {
    assert Shift(32 * x, 8) == 4 * x;
    ShiftFloors(y, 2);
    ShiftFloors(4 * x + Shift(y, 2), 262144);
  }

  lemma OffsetNear(c: PressureCalib, base: int)
    requires -166400 <= base <= 166400
    ensures Within(TWO19 * PressureOffset(Exact, c, base) - OffsetPoly(c, base), -132480128, 132480128)
  {
    hide QuarterSquare;
    QuarterSquareNear(base, 2048);
    var square := QuarterSquare(Exact, base, 2048);
    TimesError(TWO15 * square, base * base, 1031161, 998409, c.p6, 128);
    assert TWO15 * square * c.p6 == TWO15 * (square * c.p6);
    OffsetSumNear(square * c.p6, base * c.p5, c.p4);
  }

  lemma OffsetSumNear(x: int, y: int, p4: S16T)
    ensures Within(TWO19 * (Shift(Shift(x, 4) + y * 2, 4) + p4 * 65536)
                   - (TWO15 * x + 0x4_0000 * y + 0x8_0000_0000 * p4), -491520, 0)
  {
    ShiftFloors(x, 4);
    ShiftFloors(Shift(x, 4) + y * 2, 4);
  }

  /** 2^48 times the divisor. */
  function DivisorPoly(c: PressureCalib, base: int): (r: int)
  {
    (TWO48 + GainPoly(c, base)) * c.p1
  }

  lemma DivisorNear(c: PressureCalib, base: int)
    requires -166400 <= base <= 166400
    ensures Within(TWO48 * PressureDivisor(Exact, c, base) - DivisorPoly(c, base),
                   -(8734489728 * c.p1) - TWO48, 144587904 * c.p1)
  {
    hide PressureGain, GainPoly;
    var gain := PressureGain(Exact, c, base);
    GainNear(c, base);
    ShiftFloors((32768 + gain) * c.p1, 32768);
    var error := TWO33 * gain - GainPoly(c, base);
    MonotoneProduct(-8734489728, error, c.p1);
    MonotoneProduct(error, 144587904, c.p1);
    assert TWO33 * ((32768 + gain) * c.p1) == DivisorPoly(c, base) + error * c.p1;
  }

  /** 2^31 times the reading less its offset. */
  function ReadingPoly(c: PressureCalib, base: int, adc: int): (r: int)
  {
    TWO31 * (1048576 - adc) - OffsetPoly(c, base)
  }

  lemma ReadingNear(c: PressureCalib, tFine: int, adc: int)
    requires InTemperatureRange(tFine)
    ensures Within(TWO31 * ScaledReading(c, tFine, adc) - ReadingPoly(c, tFine / 2 - 64000, adc),
                   -132480128, 132480128 + TWO31)
  {
    hide PressureOffset, OffsetPoly;
    var base := PressureBase(tFine);
    OffsetNear(c, base);
    ShiftFloors(PressureOffset(Exact, c, base), 4096);
  }

  /** 2^67 times what the tail adds to the value after the division. */
  function TailPoly(c: PressureCalib, pressed: int): (r: int)
  {
    pressed * pressed * c.p9 + 0x1000_0000_0000 * (c.p8 * pressed) + 0x8000 * (c.p10 * pressed)
      + 0x40_0000_0000_0000_0000 * c.p7
  }

  lemma PressureSquareNear(pressed: nat)
    ensures Within(0x40_0000_0000 * PressureSquare(Exact, pressed) - pressed * pressed,
                   -(16382 * pressed) - 274810798080, 0)
  {
    var e := Shift(pressed, 8192);
    ShiftFloors(pressed, 8192);
    var low := 8192 * e;
    assert pressed * pressed - low * low == (pressed - low) * (pressed + low);
    MonotoneProduct(pressed - low, 8191, pressed + low);
    MonotoneProduct(0, pressed - low, pressed + low);
    assert low * low == 0x400_0000 * (e * e);
    ShiftFloors(e * e, 4096);
  }

  lemma TailNear(c: PressureCalib, pressed: nat)
    ensures var error := 536805376 * pressed + 9005000231485440;
      Within(TWO67 * (PressureTail(Exact, c, pressed) - pressed) - TailPoly(c, pressed), -error - 18 * TWO63, error)
  {
    hide PressureSquare;
    var square := PressureSquare(Exact, pressed);
    PressureSquareNear(pressed);
    TimesError(0x40_0000_0000 * square, pressed * pressed, 16382 * pressed + 274810798080, 0, c.p9, 32768);
    assert 0x40_0000_0000 * square * c.p9 == 0x40_0000_0000 * (c.p9 * square);
    TailSumNear(c.p9 * square, c.p8 * pressed, c.p10 * pressed, c.p7);
  }

  lemma TailSumNear(x: int, y: int, z: int, p7: S8)
    ensures Within(TWO67 * Shift(Shift(x, 33554432) + Shift(y, 524288) + Shift(z, 281474976710656) + p7 * 128, 16)
                   - (0x40_0000_0000 * x + 0x1000_0000_0000 * y + 0x8000 * z + 0x40_0000_0000_0000_0000 * p7),
                   -(18 * TWO63), 0)
  {
    ShiftFloors(x, 33554432);
    ShiftFloors(y, 524288);
    ShiftFloors(z, 281474976710656);
  }

  /** `pressed` solves the quotient of the formula, up to a bound on how far each factor is rounded. */
  predicate NearPressed(c: PressureCalib, base: int, adc: int, pressed: int)
  {
    var divisor := DivisorPoly(c, base);
    Within(pressed * divisor - 409600000000 * ReadingPoly(c, base, adc),
           -(144587904 * c.p1 * (pressed + 1000)) - 1000 * divisor - 409600000000 * 132480128,
           (8734489728 * c.p1 + TWO48) * pressed + 409600000000 * (132480128 + TWO31))
  }

  /** The result against the value after the division. */
  predicate NearTail(c: PressureCalib, pressed: int, result: int)
  {
    var error := 536805376 * pressed + 9005000231485440;
    Within(TWO67 * (result - pressed) - TailPoly(c, pressed), -error - 18 * TWO63, error)
  }

  ghost predicate NearPressure(c: PressureCalib, base: int, adc: int, result: int)
  {
    exists pressed: int :: NearPressed(c, base, adc, pressed) && NearTail(c, pressed, result)
  }

  lemma QuotientNear(x: nat, d: int)
    requires d > 0
    ensures var pressed := Quotient(x, d) * 1000;
      0 <= pressed && 0 <= 1000 * x - pressed * d <= 1000 * d
  {
    QuotientTruncates(x, d);
    var q := Quotient(x, d);
    assert q * 1000 * d == 1000 * (d * q);
    if q < 0 {
      MonotoneProduct(q, -1, d);
    }
  }

  lemma PressedNear(c: PressureCalib, tFine: int, adc: int)
    requires InTemperatureRange(tFine) && c.p1 >= 2 && 0 <= ScaledReading(c, tFine, adc)
    ensures PressureDivisor(Exact, c, PressureBase(tFine)) > 0 && 0 <= Pressed(Exact, c, tFine, adc)
    ensures NearPressed(c, tFine / 2 - 64000, adc, Pressed(Exact, c, tFine, adc))
  {
    hide PressureDivisor, DivisorPoly, PressureOffset, ReadingPoly, S32, S64;
    var base := PressureBase(tFine);
    assert base == tFine / 2 - 64000;
    DivisorPositiveIff(c, tFine);
    var d := PressureDivisor(Exact, c, base);
    var scaled := ScaledReading(c, tFine, adc);
    assert Pressed(Exact, c, tFine, adc) == Quotient(scaled * 3125, d) * 1000;
    QuotientNear(scaled * 3125, d);
    DivisorNear(c, base);
    ReadingNear(c, tFine, adc);
    PressedError(Pressed(Exact, c, tFine, adc), d, scaled, DivisorPoly(c, base), ReadingPoly(c, base, adc), c.p1);
  }

  lemma PressedError(pressed: nat, d: int, scaled: int, divisor: int, reading: int, p1: U16)
    requires 0 <= 3125000 * scaled - pressed * d <= 1000 * d
    requires Within(TWO48 * d - divisor, -(8734489728 * p1) - TWO48, 144587904 * p1)
    requires Within(TWO31 * scaled - reading, -132480128, 132480128 + TWO31)
    ensures Within(pressed * divisor - 409600000000 * reading,
                   -(144587904 * p1 * (pressed + 1000)) - 1000 * divisor - 409600000000 * 132480128,
                   (8734489728 * p1 + TWO48) * pressed + 409600000000 * (132480128 + TWO31))
  {
    var error := TWO48 * d - divisor;
    MonotoneProduct(-(8734489728 * p1) - TWO48, error, pressed);
    MonotoneProduct(error, 144587904 * p1, pressed);
    assert pressed * divisor == TWO48 * (pressed * d) - error * pressed;
    assert 144587904 * p1 * (pressed + 1000) == 144587904 * p1 * pressed + 1000 * (144587904 * p1);
    assert (-(8734489728 * p1) - TWO48) * pressed == -((8734489728 * p1 + TWO48) * pressed);
  }

  /**
   calc_pressure against its formula, end to end: the cast-free value always, and what the code
   returns wherever its last cast is exact.
   */
  lemma PressureNear(c: PressureCalib, tFine: int, adc: int)
    requires InTemperatureRange(tFine) && c.p1 >= 2 && 0 <= adc < 0x10_0000
    requires 0 <= ScaledReading(c, tFine, adc) <= 1374389
    ensures PressureDivisor(Bits64, c, PressureBase(tFine)) > 0
    ensures PressureDivisor(Exact, c, PressureBase(tFine)) > 0
    ensures NearPressure(c, tFine / 2 - 64000, adc, Pressure(Exact, c, tFine, adc))
    ensures 2000 <= Pressed(Bits64, c, tFine, adc) <= 4278000000 ==>
      NearPressure(c, tFine / 2 - 64000, adc, Pressure(Bits64, c, tFine, adc))
  {
    hide PressureDivisor, Pressed, PressureTail, NearPressed, ScaledReading, S32, S64;
    PressedNear(c, tFine, adc);
    TailNear(c, Pressed(Exact, c, tFine, adc));
    assert NearTail(c, Pressed(Exact, c, tFine, adc), Pressure(Exact, c, tFine, adc));
    PressureExactIff(c, tFine, adc);
  }

  // ---------------------------------------------------------------- humidity

  /** temp_scaled is t_fine in hundredths of a degree, rounded to the nearest. */
  lemma TempScaledRounds(tFine: int)
    ensures -128 < 256 * TempScaled(Exact, tFine) - 5 * tFine <= 128
  {
  }

  lemma ScaledNear(ts: int, h: int)
    ensures -99 <= 100 * Scaled(Exact, ts, h) - ts * h <= 99
  {
    QuotientTruncates(ts * h, 100);
  }

  /** var1: the reading less par_h1 and the temperature's part in par_h3. */
  predicate NearVar1(c: HumidityCalib, ts: int, adc: int, var1: int)
  {
    Within(200 * (adc - 16 * c.h1 - var1) - ts * c.h3, -199, 99)
  }

  lemma Var1Near(c: HumidityCalib, ts: int, adc: U16)
    ensures NearVar1(c, ts, adc, HumidityVar1(Exact, c, ts, adc))
  {
    hide Scaled;
    ScaledNear(ts, c.h3);
    ShiftFloors(Scaled(Exact, ts, c.h3), 2);
  }

  /** 655360000 times var2. */
  function Var2Poly(c: HumidityCalib, ts: int): (r: int)
  {
    c.h2 * (6400 * (ts * c.h4) + ts * ts * c.h5 + 10485760000)
  }

  predicate NearVar2(c: HumidityCalib, ts: int, var2: int)
  {
    Within(655360000 * var2 - Var2Poly(c, ts), -2115000 * c.h2 - 654720000, 2115000 * c.h2)
  }

  lemma BendNear(ts: int, h5: S8)
    requires -4000 <= ts <= 8500
    ensures var bend := Quotient(Shift(ts * Scaled(Exact, ts, h5), 64), 100);
      Within(640000 * bend - ts * ts * h5, -1481400, 1481400)
  {
    hide Scaled;
    ScaledNear(ts, h5);
    var scaled := Scaled(Exact, ts, h5);
    TimesError(100 * scaled, ts * h5, 99, 99, ts, 8500);
    assert 100 * scaled * ts == 100 * (ts * scaled);
    assert ts * h5 * ts == ts * ts * h5;
    ShiftFloors(ts * scaled, 64);
    QuotientTruncates(Shift(ts * scaled, 64), 100);
  }

  lemma Var2Near(c: HumidityCalib, ts: int)
    requires -4000 <= ts <= 8500
    ensures NearVar2(c, ts, HumidityVar2(Exact, c, ts))
  {
    hide Scaled;
    BendNear(ts, c.h5);
    ScaledNear(ts, c.h4);
    var sum := Scaled(Exact, ts, c.h4) + Quotient(Shift(ts * Scaled(Exact, ts, c.h5), 64), 100) + 16384;
    var poly := 6400 * (ts * c.h4) + ts * ts * c.h5 + 10485760000;
    MonotoneProduct(-2115000, 640000 * sum - poly, c.h2);
    MonotoneProduct(640000 * sum - poly, 2115000, c.h2);
    assert (640000 * sum - poly) * c.h2 == 640000 * (c.h2 * sum) - c.h2 * poly;
    ShiftFloors(c.h2 * sum, 1024);
  }

  predicate NearVar4(c: HumidityCalib, ts: int, var4: int)
  {
    Within(1600 * var4 - (12800 * c.h6 + ts * c.h7), -1599, 99)
  }

  lemma Var4Near(c: HumidityCalib, ts: int)
    ensures NearVar4(c, ts, HumidityVar4(Exact, c, ts))
  {
    hide Scaled;
    ScaledNear(ts, c.h7);
    ShiftFloors(c.h6 * 128 + Scaled(Exact, ts, c.h7), 16);
  }

  /** 2^61 times the uncapped result, and how far rounding may move it in the term with var4. */
  function HumidityPoly(var3: int, var4: int): (r: int)
  {
    1000 * (0x80_0000_0000 * var3 + var4 * (var3 * var3))
  }

  function Magnitude(x: int): (r: int)
    ensures 0 <= r
  {
    if x >= 0 then x else -x
  }

  function SquareSlack(var3: int): (r: int)
    ensures 0 <= r
  {
    16383 * (2 * Magnitude(var3) + 16383) + 274609471488
  }

  predicate NearHumidity(var3: int, var4: int, result: int)
  {
    var error := 1000 * (Magnitude(var4) * SquareSlack(var3));
    Within(0x2000_0000_0000_0000 * result - HumidityPoly(var3, var4), -error - 5216780 * 0x80_0000_0000, error)
  }

  lemma Var5Near(var3: int)
    ensures var var5 := Shift(Shift(var3, 16384) * Shift(var3, 16384), 1024);
      Within(0x40_0000_0000 * var5 - var3 * var3, -SquareSlack(var3), SquareSlack(var3))
  {
    var q := Shift(var3, 16384);
    ShiftFloors(var3, 16384);
    SquareError(16384 * q, var3, 16383, Magnitude(var3));
    assert 16384 * q * (16384 * q) == 0x1000_0000 * (q * q);
    ShiftFloors(q * q, 1024);
  }

  lemma HumidityTailNear(var3: int, var4: int)
    ensures NearHumidity(var3, var4, HumidityTail(Exact, var3, var4))
  {
    hide SquareSlack;
    Var5Near(var3);
    var var5 := Shift(Shift(var3, 16384) * Shift(var3, 16384), 1024);
    TimesError(0x40_0000_0000 * var5, var3 * var3, SquareSlack(var3), SquareSlack(var3), var4, Magnitude(var4));
    assert 0x40_0000_0000 * var5 * var4 == 0x40_0000_0000 * (var4 * var5);
    assert SquareSlack(var3) * Magnitude(var4) == Magnitude(var4) * SquareSlack(var3);
    HumiditySumNear(var3, var4 * var5);
  }

  lemma HumiditySumNear(var3: int, product: int)
    ensures Within(0x2000_0000_0000_0000 * Shift(Shift(var3 + Shift(product, 2), 1024) * 1000, 4096)
                   - 1000 * (0x80_0000_0000 * var3 + 0x40_0000_0000 * product), -(5216780 * 0x80_0000_0000), 0)
  {
    ShiftFloors(product, 2);
    var sum := var3 + Shift(product, 2);
    ShiftFloors(sum, 1024);
    ShiftFloors(Shift(sum, 1024) * 1000, 4096);
  }

  /** The result is the value moved to the nearest end of 0 to 100 %, if it is outside. */
  predicate Clamped(x: int, result: int)
  {
    0 <= result <= 100000 && (result > x ==> result == 0) && (result < x ==> result == 100000)
  }

  ghost predicate NearRelativeHumidity(c: HumidityCalib, ts: int, adc: int, result: int)
  {
    exists var1: int, var2: int, var4: int, x: int ::
      && NearVar1(c, ts, adc, var1) && NearVar2(c, ts, var2) && NearVar4(c, ts, var4)
      && NearHumidity(var1 * var2, var4, x) && Clamped(x, result)
  }

  /**
   calc_humidity against its formula, end to end: every factor is within its rounding of the
   polynomial it stands for. The code's words give that wherever nothing overflows.
   */
  lemma HumidityNear(c: HumidityCalib, tFine: int, adc: U16)
    requires HumidityInRange(c, tFine)
    ensures NearRelativeHumidity(c, TempScaled(Exact, tFine), adc, Humidity(Exact, c, tFine, adc))
    ensures HumidityFits(c, tFine, adc) ==>
      NearRelativeHumidity(c, TempScaled(Exact, tFine), adc, Humidity(Bits32, c, tFine, adc))
  {
    hide HumidityVar1, HumidityVar2, HumidityVar4, HumidityTail, HumidityFits;
    hide NearVar1, NearVar2, NearVar4, NearHumidity, TempScaled, S32, S64;
    var ts := TempScaled(Exact, tFine);
    var var1, var2, var4 := HumidityVar1(Exact, c, ts, adc), HumidityVar2(Exact, c, ts), HumidityVar4(Exact, c, ts);
    Var1Near(c, ts, adc);
    Var2Near(c, ts);
    Var4Near(c, ts);
    HumidityTailNear(var1 * var2, var4);
    assert Clamped(HumidityTail(Exact, var1 * var2, var4), Humidity(Exact, c, tFine, adc));
    HumidityFitsIff(c, tFine, adc);
    if HumidityFits(c, tFine, adc) {
      HumidityExact(c, tFine, adc);
    }
  }

  // ---------------------------------------------------------------- unpacking

  lemma Nibble(high: int, low: int)
    requires 0 <= low < 16
    ensures (high * 16 + low) / 16 == high && (high * 16 + low) % 16 == low
  {
  }

  lemma LowByte(high: int, low: int)
    requires 0 <= low < 256
    ensures (high * 256 + low) / 256 == high && (high * 256 + low) % 256 == low
  {
  }

  /** The unpacked values give back the fields they were put together from. */
  lemma UnpackedFields(msb: U8, lsb: U8, xlsb: U8)
    ensures var r := Unpack20(msb, lsb, xlsb); r / 16 / 256 == msb && r / 16 % 256 == lsb && r % 16 == xlsb / 16
    ensures UnpackH2(msb, lsb) / 16 == msb && UnpackH2(msb, lsb) % 16 == lsb / 16
    ensures UnpackH1(lsb) / 16 == lsb && UnpackH1(lsb) % 16 == lsb % 16
  {
    LowByte(msb, lsb);
    Nibble(msb * 256 + lsb, xlsb / 16);
    Nibble(msb, lsb / 16);
    Nibble(lsb, lsb % 16);
  }
}
