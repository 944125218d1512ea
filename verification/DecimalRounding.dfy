/**
 The VWAP check of the sanitized export. Volumes are decimals with six fractional digits; their
 quotient is formed at 100 significant digits and then quantized, half to even, to 18 places. The
 theorem is that rounding twice changes nothing: the result is the one exact rounding of the quotient.
 */
module DecimalRounding {
  import opened Wrappers

  function Pow10(n: nat): (p: nat)
    ensures p >= 1
  {
    if n == 0 then 1 else 10 * Pow10(n - 1)
  }

  lemma {:induction false} Pow10Adds(a: nat, b: nat)
    ensures Pow10(a + b) == Pow10(a) * Pow10(b)
    decreases b
  {
    if b > 0 {
      Pow10Adds(a, b - 1);
      assert 10 * (Pow10(a) * Pow10(b - 1)) == Pow10(a) * (10 * Pow10(b - 1));
    }
  }

  lemma {:induction false} Pow10Grows(a: nat, b: nat)
    requires a <= b
    ensures Pow10(a) <= Pow10(b)
    ensures a < b ==> 10 * Pow10(a) <= Pow10(b)
  {
    if a < b { Pow10Grows(a, b - 1); }
  }

  // ---- multiplication ----

  lemma {:induction false} MulLe(a: int, b: int, c: int)
    requires a <= b && 0 <= c
    ensures a * c <= b * c
  {
  }

  lemma {:induction false} MulLt(a: int, b: int, c: int)
    requires a * c < b * c && 0 < c
    ensures a < b
  {
    if b <= a { MulLe(b, a, c); }
  }

  lemma {:induction false} MulDistributes(a: int, b: int, c: int)
    ensures (a + b) * c == a * c + b * c
    ensures (a - b) * c == a * c - b * c
  {
  }

  lemma {:induction false} MulAssociates(a: int, b: int, c: int)
    ensures (a * b) * c == a * (b * c) == (a * c) * b
  {
  }

  // ---- one half-even rounding of a fraction ----

  /** n / d to the nearest integer, ties to even (roundTiesToEven, section 4.3.1 of IEEE 754-2008). */
  function DivHalfEven(n: nat, d: nat): nat
    requires d > 0
  {
    var q, r := n / d, n % d;
    if 2 * r < d || (2 * r == d && q % 2 == 0) then q else q + 1
  }

  /** What it means to be the half-even rounding of n / d, by distance alone. */
  ghost predicate IsHalfEven(n: nat, d: nat, q: nat)
    requires d > 0
  {
    var gap: int := q * d - n;
    2 * gap <= d && -2 * gap <= d && (2 * gap == d || -2 * gap == d ==> q % 2 == 0)
  }

  lemma {:induction false} DivHalfEvenIsHalfEven(n: nat, d: nat)
    requires d > 0
    ensures IsHalfEven(n, d, DivHalfEven(n, d))
  {
    var q, r := n / d, n % d;
    assert n == q * d + r;
    MulDistributes(q, 1, d);
  }

  lemma {:induction false} NearestIsUniqueFromAbove(n: nat, d: nat, q: nat, q': nat)
    requires d > 0 && IsHalfEven(n, d, q) && IsHalfEven(n, d, q') && q >= q'
    ensures q == q'
  {
    if q > q' {
      MulLe(q' + 1, q, d);
      MulDistributes(q', 1, d);
      MulDistributes(q', 2, d);
      if q >= q' + 2 { MulLe(q' + 2, q, d); }
    }
  }

  /** Two integers within half a unit of the same value are equal, a tie leaving only the even one. */
  lemma {:induction false} NearestIsUnique(n: nat, d: nat, q: nat, q': nat)
    requires d > 0 && IsHalfEven(n, d, q) && IsHalfEven(n, d, q')
    ensures q == q'
  {
    if q >= q' { NearestIsUniqueFromAbove(n, d, q, q'); } else { NearestIsUniqueFromAbove(n, d, q', q); }
  }

  /** The computed rounding is the one and only half-even rounding. */
  lemma {:induction false} HalfEvenExactly(n: nat, d: nat, q: nat)
    requires d > 0
    ensures q == DivHalfEven(n, d) <==> IsHalfEven(n, d, q)
  {
    DivHalfEvenIsHalfEven(n, d);
    if IsHalfEven(n, d, q) { NearestIsUnique(n, d, q, DivHalfEven(n, d)); }
  }

  // ---- rounding twice ----

  /** Away from ties: rho/S is less than a half, and the finer rounding moves it by too little to reach one. */
  lemma {:induction false} OffTieStaysOff(S: int, T: int, rho: int, eps: int, gap: int)
    requires 0 < S < T && 2 * rho < S && 2 * eps >= -S
    requires gap * S == rho * T - eps
    ensures 2 * gap < T
  {
    MulLe(2 * rho, S - 1, T);
    MulDistributes(S, 1, T);
    MulAssociates(2, rho, T);
    MulAssociates(2, gap, S);
    assert (2 * gap) * S < T * S;
    MulLt(2 * gap, T, S);
  }

  /** On a tie the finer grid holds the value exactly. */
  lemma {:induction false} TieIsOnTheGrid(S: int, h: int, rho: int, eps: int, gap: int)
    requires 0 < S && 2 * rho == S && -S <= 2 * eps <= S
    requires gap * S == rho * (2 * h) - eps
    ensures gap == h
  {
    MulAssociates(2, rho, h);
    MulAssociates(rho, 2, h);
    assert rho * (2 * h) == S * h;
    MulDistributes(h, gap, S);
    assert (h - gap) * S == eps;
    if h - gap >= 1 { MulLe(1, h - gap, S); }
    if h - gap <= -1 { MulLe(h - gap, -1, S); }
  }

  lemma {:induction false} GapsAddUp(A: int, S: int, T: int, Q: int, M: int)
    ensures (Q * T - M) * S == (Q * S - A) * T - (M * S - A * T)
  {
    MulDistributes(Q * T, M, S);
    MulDistributes(Q * S, A, T);
    MulAssociates(Q, T, S);
  }

  /**
   Rounding A/S first to the finer grid 1/T and then to whole units gives the rounding of A/S itself,
   as soon as T is even and greater than S: no value that is not a tie lies as close to a tie as the
   first rounding can move it, and a tie is on the finer grid.
   */
  lemma {:induction false} DoubleRoundingIsHarmless(A: nat, S: nat, T: nat)
    requires S > 0 && T > S && T % 2 == 0
    ensures DivHalfEven(DivHalfEven(A * T, S), T) == DivHalfEven(A, S)
  {
    var Q, M := DivHalfEven(A, S), DivHalfEven(A * T, S);
    DivHalfEvenIsHalfEven(A, S);
    DivHalfEvenIsHalfEven(A * T, S);
    DivHalfEvenIsHalfEven(M, T);
    SecondRoundingAgrees(A, S, T, Q, M);
    NearestIsUnique(M, T, Q, DivHalfEven(M, T));
  }

  lemma {:induction false} SecondRoundingAgrees(A: nat, S: nat, T: nat, Q: nat, M: nat)
    requires S > 0 && T > S && T % 2 == 0
    requires IsHalfEven(A, S, Q) && IsHalfEven(A * T, S, M)
    ensures IsHalfEven(M, T, Q)
  {
    var rho: int, eps: int, gap: int := Q * S - A, M * S - A * T, Q * T - M;
    GapsAddUp(A, S, T, Q, M);
    assert (-gap) * S == (-rho) * T - (-eps) by { NegateProducts(gap, S, rho, T); }
    if 2 * rho == S {
      TieIsOnTheGrid(S, T / 2, rho, eps, gap);
    } else if -2 * rho == S {
      TieIsOnTheGrid(S, T / 2, -rho, -eps, -gap);
    } else {
      OffTieStaysOff(S, T, rho, eps, gap);
      OffTieStaysOff(S, T, -rho, -eps, -gap);
    }
  }

  lemma {:induction false} NegateProducts(gap: int, S: int, rho: int, T: int)
    ensures (-gap) * S == -(gap * S)
    ensures (-rho) * T == -(rho * T)
  {
  }

  /** A grid that is not finer than the denominator can spoil the result: 1.46 goes to 1.5 and then to 2. */
  lemma {:induction false} CoarseRoundingIsNotHarmless()
    ensures DivHalfEven(DivHalfEven(146 * 10, 100), 10) == 2
    ensures DivHalfEven(146, 100) == 1
  {
  }

  // ---- decimals as the export reads them ----

  newtype Digit = d: int | 0 <= d < 10

  function DigitsValue(digits: seq<Digit>): (v: nat)
    ensures v < Pow10(|digits|)
  {
    if digits == [] then 0
    else DigitsValue(digits[..|digits| - 1]) * 10 + digits[|digits| - 1] as int
  }

  /** Positional notation: what stands before counts as many tens as there are digits after it. */
  lemma {:induction false} DigitsAppend(a: seq<Digit>, b: seq<Digit>)
    ensures DigitsValue(a + b) == DigitsValue(a) * Pow10(|b|) + DigitsValue(b)
    decreases |b|
  {
    if b == [] {
      assert a + b == a;
    } else {
      var front, last := b[..|b| - 1], b[|b| - 1];
      assert (a + b)[..|a + b| - 1] == a + front;
      DigitsAppend(a, front);
      ShiftDigits(DigitsValue(a), Pow10(|front|), DigitsValue(front), last as int);
    }
  }

  lemma {:induction false} ShiftDigits(v: nat, p: nat, w: nat, d: nat)
    ensures (v * p + w) * 10 + d == v * (10 * p) + (w * 10 + d)
  {
    MulAssociates(v, p, 10);
  }

  lemma {:induction false} OneDigit(d: Digit)
    ensures DigitsValue([d]) == d as int
  {
    assert [d][..0] == [];
  }

  /** Zeros in front change nothing. */
  lemma {:induction false} LeadingZero(digits: seq<Digit>)
    ensures DigitsValue([0] + digits) == DigitsValue(digits)
  {
    OneDigit(0);
    DigitsAppend([0], digits);
  }

  /** An unsigned decimal cell: its integer digits and its fractional digits. */
  datatype Cell = Cell(whole: seq<Digit>, fraction: seq<Digit>)

  /** A decimal type: total digits, fractional digits of volumes and of prices, and the division's precision. */
  datatype Format = Format(width: nat, volumePlaces: nat, pricePlaces: nat, precision: nat) {
    /** Enough precision for division and quantization to act as one rounding. */
    predicate Sufficient() {
      0 < volumePlaces <= width && precision >= 2 * width + pricePlaces
    }
  }

  /** DECIMAL(38, 6) volumes, 18-place prices, a context precision of 100. */
  const EXPORT: Format := Format(38, 6, 18, 100)

  lemma {:induction false} ExportFormatIsSufficient()
    ensures EXPORT.Sufficient()
  {
  }

  /** The export's size test for a volume cell. */
  predicate FitsVolume(c: Cell, format: Format)
    requires format.Sufficient()
  {
    |c.whole| <= format.width - format.volumePlaces && |c.fraction| <= format.volumePlaces
  }

  /** The volume in units of its last place. */
  function Units(c: Cell, format: Format): (v: nat)
    requires format.Sufficient() && FitsVolume(c, format)
    ensures v < Pow10(format.width)
  {
    var k := format.volumePlaces - |c.fraction|;
    CellBound(DigitsValue(c.whole + c.fraction), |c.whole + c.fraction|, k, format.width);
    DigitsValue(c.whole + c.fraction) * Pow10(k)
  }

  /** All digits of a cell, the point left out. */
  function Numeral(c: Cell): nat {
    DigitsValue(c.whole + c.fraction)
  }

  /** A cell is its digits, over as many tens as it has decimal places. */
  lemma {:induction false} UnitsAreTheDigits(c: Cell, format: Format)
    requires format.Sufficient() && FitsVolume(c, format)
    ensures Units(c, format) * Pow10(|c.fraction|) == Numeral(c) * Pow10(format.volumePlaces)
  {
    var k := format.volumePlaces - |c.fraction|;
    Pow10Adds(k, |c.fraction|);
    MulAssociates(Numeral(c), Pow10(k), Pow10(|c.fraction|));
  }

  /** A zero after the last decimal place changes nothing. */
  lemma {:induction false} TrailingZero(c: Cell, format: Format)
    requires format.Sufficient() && FitsVolume(c, format) && |c.fraction| < format.volumePlaces
    ensures Units(c.(fraction := c.fraction + [0]), format) == Units(c, format)
  {
    var longer, k := c.(fraction := c.fraction + [0]), format.volumePlaces - |c.fraction| - 1;
    assert longer.whole + longer.fraction == (c.whole + c.fraction) + [0];
    DigitsAppend(c.whole + c.fraction, [0]);
    OneDigit(0);
    assert Pow10(1) == 10 * Pow10(0);
    MulAssociates(Numeral(c), 10, Pow10(k));
  }

  /** The export's size test: at most 32 digits before the point and 6 after it. */
  lemma {:induction false} ExportVolumesFitExactly(c: Cell)
    ensures FitsVolume(c, EXPORT) <==> |c.whole| <= 32 && |c.fraction| <= 6
  {
  }

  lemma {:induction false} CellBound(v: nat, n: nat, k: nat, width: nat)
    requires v < Pow10(n) && n + k <= width
    ensures v * Pow10(k) < Pow10(width)
  {
    Pow10Adds(n, k);
    Pow10Grows(n + k, width);
    MulLe(v + 1, Pow10(n), Pow10(k));
    MulDistributes(v, 1, Pow10(k));
  }

  // ---- division at a given number of significant digits ----

  lemma {:induction false} NextPower(C: nat, f: nat)
    ensures C * Pow10(f + 1) == 10 * (C * Pow10(f))
  {
    MulAssociates(C, 10, Pow10(f));
  }

  /** The least number of fractional digits at which C/S has the given number of digits in all. */
  function FractionDigits(C: nat, S: nat, precision: nat, from: nat): (f: nat)
    requires C > 0 && S > 0 && precision > 0
    ensures f >= from && C * Pow10(f) >= Pow10(precision - 1) * S
    ensures f > from ==> C * Pow10(f - 1) < Pow10(precision - 1) * S
    decreases Pow10(precision - 1) * S - C * Pow10(from)
  {
    if C * Pow10(from) >= Pow10(precision - 1) * S then from
    else
      NextPower(C, from);
      MulLe(1, C, Pow10(from));
      FractionDigits(C, S, precision, from + 1)
  }

  /** A decimal coefficient with a number of fractional digits. */
  datatype Scaled = Scaled(coefficient: nat, digits: nat)

  /** The quotient C/S rounded half to even to the given number of significant digits; 0/S is exact. */
  function Divide(C: nat, S: nat, precision: nat): Scaled
    requires S > 0 && precision > 0
  {
    if C == 0 then Scaled(0, precision)
    else
      var f := FractionDigits(C, S, precision, 0);
      Scaled(DivHalfEven(C * Pow10(f), S), f)
  }

  /** `quantize`: digits beyond the given place are rounded off half to even. */
  function Quantize(x: Scaled, places: nat): nat
    requires x.digits >= places
  {
    DivHalfEven(x.coefficient, Pow10(x.digits - places))
  }

  lemma {:induction false} TooFewDigits(C: nat, W: nat, F: nat, P: nat, S: nat)
    requires C < W && W * F <= P && F > 0 && S > 0
    ensures C * F < P * S
  {
    MulLe(C + 1, W, F);
    MulDistributes(C, 1, F);
    MulLe(1, S, P);
  }

  lemma {:induction false} EnoughDigits(C: nat, S: nat, width: nat, precision: nat)
    requires 0 < C < Pow10(width) && S > 0 && precision >= width + 1
    ensures FractionDigits(C, S, precision, 0) >= precision - width
  {
    var f := FractionDigits(C, S, precision, 0);
    if f < precision - width {
      Pow10Adds(width, f);
      Pow10Grows(width + f, precision - 1);
      TooFewDigits(C, Pow10(width), Pow10(f), Pow10(precision - 1), S);
    }
  }

  /** Division and quantization in turn, for volumes of up to `width` digits. */
  function RoundedTwice(C: nat, S: nat, width: nat, places: nat, precision: nat): nat
    requires C < Pow10(width) && S > 0 && precision >= width + places + 1
  {
    if C > 0 then EnoughDigits(C, S, width, precision); Quantize(Divide(C, S, precision), places)
    else Quantize(Divide(C, S, precision), places)
  }

  lemma {:induction false} Pow10IsEven(n: nat)
    requires n > 0
    ensures Pow10(n) % 2 == 0
  {
    assert Pow10(n) == 2 * (5 * Pow10(n - 1));
  }

  /**
   Rounding twice is one exact half-even rounding whenever the precision is at least twice the width
   of the volumes plus the number of places kept.
   */
  lemma {:induction false} RoundedTwiceIsExact(C: nat, S: nat, width: nat, places: nat, precision: nat)
    requires C < Pow10(width) && 0 < S < Pow10(width) && precision >= 2 * width + places && width > 0
    ensures RoundedTwice(C, S, width, places, precision) == DivHalfEven(C * Pow10(places), S)
  {
    if C > 0 {
      var f := FractionDigits(C, S, precision, 0);
      EnoughDigits(C, S, width, precision);
      var A, T := C * Pow10(places), Pow10(f - places);
      Pow10Adds(places, f - places);
      MulAssociates(C, Pow10(places), T);
      Pow10Grows(width, f - places);
      Pow10IsEven(f - places);
      DoubleRoundingIsHarmless(A, S, T);
    } else {
      ZeroRoundsToZero(S);
      ZeroRoundsToZero(Pow10(precision - places));
    }
  }

  lemma {:induction false} ZeroRoundsToZero(d: nat)
    requires d > 0
    ensures DivHalfEven(0, d) == 0
  {
  }

  /** The VWAP the export expects, in units of a price's last place. */
  function ExpectedVwap(collateral: nat, share: nat, format: Format): nat
    requires format.Sufficient() && collateral < Pow10(format.width) && share > 0
  {
    RoundedTwice(collateral, share, format.width, format.pricePlaces, format.precision)
  }

  lemma {:induction false} RoundingKeepsUpperBound(n: nat, d: nat, bound: nat)
    requires d > 0 && n <= bound * d
    ensures DivHalfEven(n, d) <= bound
  {
    DivHalfEvenIsHalfEven(n, d);
    var q := DivHalfEven(n, d);
    if q > bound {
      MulLe(bound + 1, q, d);
      MulDistributes(bound, 1, d);
    }
  }

  /** A part rounds to at most the whole. */
  lemma {:induction false} RoundedShareIsAtMostOne(c: nat, s: nat, one: nat)
    requires c <= s && s > 0
    ensures DivHalfEven(c * one, s) <= one
  {
    MulLe(c, s, one);
    RoundingKeepsUpperBound(c * one, s, one);
  }

  // ---- the row check ----

  /** A price in units of its last place, or an empty cell, which the format of the columns allows. */
  type Price = Option<nat>

  /** One side of a row, as far as its VWAP is checked. */
  datatype Side = Side(observed: bool, fills: nat, share: Cell, collateral: Cell,
                       open: Price, high: Price, low: Price, close: Price, vwap: Price)
  {
    predicate HasAllPrices() {
      open.Some? && high.Some? && low.Some? && close.Some? && vwap.Some?
    }
  }

  datatype RowError = NotADecimal | VwapInconsistent | SingleFillIncoherent

  /** The volumes pass the size test that runs before the row check. */
  predicate VolumesFit(s: Side, format: Format)
    requires format.Sufficient()
  {
    FitsVolume(s.share, format) && FitsVolume(s.collateral, format)
  }

  function ValidateSide(s: Side, format: Format): Result<(), RowError>
    requires format.Sufficient() && VolumesFit(s, format)
  {
    var share, collateral := Units(s.share, format), Units(s.collateral, format);
    if !s.observed then Success(())
    else if share > 0 && s.vwap.None? then Failure(NotADecimal)
    else if share > 0 && s.vwap.value != ExpectedVwap(collateral, share, format) then Failure(VwapInconsistent)
    else if s.fills == 1 && !s.HasAllPrices() then Failure(NotADecimal)
    else if s.fills == 1 && !(s.open == s.high == s.low == s.close == s.vwap) then Failure(SingleFillIncoherent)
    else Success(())
  }

  lemma {:induction false} Positive(a: nat, b: nat)
    requires a > 0 && b > 0
    ensures a * b > 0
  {
  }

  /** A price is the quotient of two cells rounded half to even, by the cells' digits and decimal places alone. */
  ghost predicate IsTheQuotient(collateral: Cell, share: Cell, places: nat, price: nat)
    requires Numeral(share) > 0
  {
    Positive(Numeral(share), Pow10(|collateral.fraction|));
    IsHalfEven(Numeral(collateral) * Pow10(|share.fraction|) * Pow10(places),
               Numeral(share) * Pow10(|collateral.fraction|), price)
  }

  /** What acceptance should mean: the VWAP is the exact half-even rounding of the volumes' quotient. */
  ghost predicate SideIsCoherent(s: Side, places: nat) {
    s.observed ==>
      && (Numeral(s.share) > 0 ==> s.vwap.Some? && IsTheQuotient(s.collateral, s.share, places, s.vwap.value))
      && (s.fills == 1 ==> s.open.Some? && s.open == s.high == s.low == s.close == s.vwap)
  }

  /** Scaling a fraction up does not change its rounding. */
  lemma {:induction false} RoundingScales(n: nat, d: nat, k: nat, q: nat)
    requires d > 0 && k > 0 && d * k > 0
    ensures IsHalfEven(n * k, d * k, q) <==> IsHalfEven(n, d, q)
  {
    var gap: int := q * d - n;
    MulAssociates(q, d, k);
    MulDistributes(q * d, n, k);
    assert q * (d * k) - n * k == gap * k;
    MulAssociates(2, gap, k);
    MulAssociates(-2, gap, k);
    KeepsOrder(2 * gap, d, k);
    KeepsOrder(-2 * gap, d, k);
  }

  lemma {:induction false} KeepsOrder(a: int, b: int, k: int)
    requires k > 0
    ensures a <= b <==> a * k <= b * k
    ensures a == b <==> a * k == b * k
  {
    if a <= b { MulLe(a, b, k); }
    if b <= a { MulLe(b, a, k); }
    if a * k < b * k { MulLt(a, b, k); }
    if b * k < a * k { MulLt(b, a, k); }
  }

  lemma {:induction false} CrossScale(uc: nat, us: nat, c: nat, s: nat, pc: nat, ps: nat, v: nat, p: nat)
    requires uc * pc == c * v && us * ps == s * v
    ensures (uc * p) * (pc * ps) == (c * ps * p) * v
    ensures us * (pc * ps) == (s * pc) * v
  {
    assert us * (pc * ps) == (us * ps) * pc == (s * v) * pc == (s * pc) * v;
    assert (uc * p) * (pc * ps) == (uc * pc) * (p * ps) by {
      MulAssociates(uc, p, pc * ps);
      MulAssociates(uc, pc, p * ps);
      assert p * (pc * ps) == pc * (p * ps);
    }
    assert (c * v) * (p * ps) == (c * ps * p) * v by {
      MulAssociates(c, v, p * ps);
      MulAssociates(c, ps, p);
      assert c * (p * ps) == c * ps * p;
    }
  }

  lemma {:induction false} SameValue(f: (nat, nat) -> bool, uc: nat, us: nat, c: nat, s: nat, pc: nat, ps: nat,
                                     v: nat, p: nat)
    requires uc * pc == c * v && us * ps == s * v
    requires f((uc * p) * (pc * ps), us * (pc * ps)) == f(uc * p, us)
    requires f((c * ps * p) * v, (s * pc) * v) == f(c * ps * p, s * pc)
    ensures f(uc * p, us) == f(c * ps * p, s * pc)
  {
    CrossScale(uc, us, c, s, pc, ps, v, p);
  }

  /** The rounding as a test of a fraction, for a given price. */
  ghost function RoundsTo(price: nat): (nat, nat) -> bool {
    (n: nat, d: nat) => d > 0 && IsHalfEven(n, d, price)
  }

  lemma {:induction false} TestScales(n: nat, d: nat, k: nat, price: nat)
    requires d > 0 && k > 0
    ensures RoundsTo(price)(n * k, d * k) == RoundsTo(price)(n, d)
  {
    Positive(d, k);
    RoundingScales(n, d, k, price);
  }

  lemma {:induction false} UnitsGiveTheQuotient(collateral: Cell, share: Cell, format: Format, price: nat)
    requires format.Sufficient() && FitsVolume(collateral, format) && FitsVolume(share, format)
    requires Numeral(share) > 0 && Units(share, format) > 0
    ensures IsHalfEven(Units(collateral, format) * Pow10(format.pricePlaces), Units(share, format), price)
       <==> IsTheQuotient(collateral, share, format.pricePlaces, price)
  {
    var uc, us := Units(collateral, format), Units(share, format);
    var v, p := Pow10(format.volumePlaces), Pow10(format.pricePlaces);
    var pc, ps := Pow10(|collateral.fraction|), Pow10(|share.fraction|);
    UnitsAreTheDigits(collateral, format);
    UnitsAreTheDigits(share, format);
    QuotientsAgree(uc, us, Numeral(collateral), Numeral(share), pc, ps, v, p, price);
    Positive(Numeral(share), pc);
    assert RoundsTo(price)(uc * p, us) == IsHalfEven(uc * p, us, price);
  }

  lemma {:induction false} QuotientsAgree(uc: nat, us: nat, c: nat, s: nat, pc: nat, ps: nat, v: nat, p: nat,
                                          price: nat)
    requires uc * pc == c * v && us * ps == s * v
    requires us > 0 && s > 0 && pc > 0 && ps > 0 && v > 0
    ensures RoundsTo(price)(uc * p, us) == RoundsTo(price)(c * ps * p, s * pc)
  {
    Positive(pc, ps);
    Positive(s, pc);
    TestScales(uc * p, us, pc * ps, price);
    TestScales(c * ps * p, s * pc, v, price);
    SameValue(RoundsTo(price), uc, us, c, s, pc, ps, v, p);
  }

  lemma {:induction false} NoUnitsNoDigits(c: Cell, format: Format)
    requires format.Sufficient() && FitsVolume(c, format)
    ensures Units(c, format) > 0 <==> Numeral(c) > 0
  {
    if Numeral(c) > 0 { Positive(Numeral(c), Pow10(format.volumePlaces - |c.fraction|)); }
  }

  /** A row side is accepted exactly when it is coherent, although the check rounds twice. */
  lemma {:induction false} SideAcceptedExactly(s: Side, format: Format)
    requires format.Sufficient() && VolumesFit(s, format)
    ensures ValidateSide(s, format).Success? <==> SideIsCoherent(s, format.pricePlaces)
  {
    var share, collateral := Units(s.share, format), Units(s.collateral, format);
    NoUnitsNoDigits(s.share, format);
    if share > 0 && s.vwap.Some? {
      VwapIsTheRounding(collateral, share, s.vwap.value, format);
      UnitsGiveTheQuotient(s.collateral, s.share, format, s.vwap.value);
    }
  }

  /** The export's own check, at 18 decimal places and a precision of 100 digits. */
  lemma {:induction false} ExportSideAcceptedExactly(s: Side)
    requires EXPORT.Sufficient() && VolumesFit(s, EXPORT)
    ensures ValidateSide(s, EXPORT).Success? <==> SideIsCoherent(s, 18)
    ensures EXPORT.precision == 100
  {
    SideAcceptedExactly(s, EXPORT);
  }

  /** Which error comes first: an empty VWAP, a wrong one, another empty price, prices that differ. */
  lemma {:induction false} RefusalsExactly(s: Side, format: Format)
    requires format.Sufficient() && VolumesFit(s, format) && s.observed
    ensures var traded, missing := Numeral(s.share) > 0, None in [s.open, s.high, s.low, s.close, s.vwap];
      var wrong := traded && s.vwap.Some? && !IsTheQuotient(s.collateral, s.share, format.pricePlaces, s.vwap.value);
      && (ValidateSide(s, format) == Failure(VwapInconsistent) <==> wrong)
      && (ValidateSide(s, format) == Failure(NotADecimal) <==>
            (traded && s.vwap.None?) || (!wrong && s.fills == 1 && missing))
      && (ValidateSide(s, format) == Failure(SingleFillIncoherent) <==>
            !wrong && s.fills == 1 && !missing && !(s.open == s.high == s.low == s.close == s.vwap))
  {
    var share, collateral := Units(s.share, format), Units(s.collateral, format);
    NoUnitsNoDigits(s.share, format);
    if share > 0 && s.vwap.Some? {
      VwapIsTheRounding(collateral, share, s.vwap.value, format);
      UnitsGiveTheQuotient(s.collateral, s.share, format, s.vwap.value);
    }
  }

  /** For every pair of volumes within the format, the expected VWAP is the one exact half-even rounding. */
  lemma {:induction false} VwapIsTheRounding(collateral: nat, share: nat, vwap: nat, format: Format)
    requires format.Sufficient() && collateral < Pow10(format.width) && 0 < share < Pow10(format.width)
    ensures vwap == ExpectedVwap(collateral, share, format)
       <==> IsHalfEven(collateral * Pow10(format.pricePlaces), share, vwap)
  {
    RoundedTwiceIsExact(collateral, share, format.width, format.pricePlaces, format.precision);
    HalfEvenExactly(collateral * Pow10(format.pricePlaces), share, vwap);
  }

  /**
   Collateral between zero and the share volume forces an accepted VWAP, and a single fill's whole bar,
   into [0, 1].
   */
  lemma {:induction false} AcceptedSideIsAProbability(s: Side, format: Format)
    requires format.Sufficient() && VolumesFit(s, format) && ValidateSide(s, format).Success? && s.observed
    requires 0 < Units(s.share, format) && Units(s.collateral, format) <= Units(s.share, format)
    ensures s.vwap.Some? && s.vwap.value <= Pow10(format.pricePlaces)
    ensures s.fills == 1 ==> s.low == s.open == s.close == s.high == s.vwap
  {
    var share, collateral := Units(s.share, format), Units(s.collateral, format);
    RoundedTwiceIsExact(collateral, share, format.width, format.pricePlaces, format.precision);
    RoundedShareIsAtMostOne(collateral, share, Pow10(format.pricePlaces));
  }
}
