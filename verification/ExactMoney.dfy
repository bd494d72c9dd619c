/**
 Exact conversions of non-negative minor units: reference mids, the two spread engines, and the
 decimal strings they print.
 */
module ExactMoney {
  import opened Wrappers
  import opened Text
  import opened Decimal

  datatype Currency = USD | EUR | GBP | SGD | MYR | USDC | EURC | Unlisted(code: Text)

  datatype MoneyError = UnsupportedPair | SpreadTooFine | SpreadOutOfRange

  /** The fiat currency a stablecoin is pegged to; any other currency stands for itself. */
  function FiatCode(c: Currency): Currency {
    match c
    case USDC => USD
    case EURC => EUR
    case _ => c
  }

  /** Reference mid in millionths of USD. */
  function ExactMid(c: Currency): Option<nat> {
    match c
    case USD => Some(1_000_000)
    case EUR => Some(1_083_000)
    case GBP => Some(1_271_000)
    case SGD => Some(742_000)
    case MYR => Some(213_000)
    case _ => None
  }

  function Mid(c: Currency): Option<nat> { ExactMid(FiatCode(c)) }

  datatype RawRate = Rate(numerator: nat, denominator: nat)
  type Rate = r: RawRate | r.numerator > 0 && r.denominator > 0 witness Rate(1, 1)

  /** A product of non-negative integers. */
  function Times(a: nat, b: nat): nat { a * b }

  function ExactRate(from: Currency, to: Currency): Result<Rate, MoneyError> {
    match (Mid(from), Mid(to))
    case (Some(n), Some(d)) => Success(Rate(n, d))
    case _ => Failure(UnsupportedPair)
  }

  // ----- Spreads -----

  const UNITS_PER_BPS: nat := 10_000
  const WHOLE: nat := 100_000_000
  const MAX_SAFE_INTEGER: int := 9_007_199_254_740_991

  /** A spread in bps as a whole number of ten-thousandths of a bps. */
  function BpsToUnits(bps: real): Result<nat, MoneyError> {
    var scaled := bps * UNITS_PER_BPS as real;
    var units := (scaled + 0.5).Floor;
    if !(-MAX_SAFE_INTEGER <= units <= MAX_SAFE_INTEGER)
       || scaled - units as real > 0.0000001 || units as real - scaled > 0.0000001 then Failure(SpreadTooFine)
    else if units < 0 || units > WHOLE then Failure(SpreadOutOfRange)
    else Success(units)
  }

  /** BigInt division, which truncates toward zero. */
  function Truncate(n: int, d: nat): int
    requires d > 0
  {
    if n >= 0 then n / d else -((-n) / d)
  }

  function ConvertAtMid(amount: nat, from: Currency, to: Currency): Result<nat, MoneyError> {
    var rate :- ExactRate(from, to);
    Success(Times(amount, rate.numerator) / rate.denominator)
  }

  function ConvertWithSpread(amount: nat, from: Currency, to: Currency, bps: real): Result<nat, MoneyError> {
    var rate :- ExactRate(from, to);
    var units :- BpsToUnits(bps);
    Success(Kept(amount, rate, units))
  }

  /** What is paid out at a rate after a spread of so many units, rounded down. */
  function Kept(amount: nat, rate: Rate, units: nat): nat
    requires units <= WHOLE
  {
    Times(Times(amount, rate.numerator), WHOLE - units) / (rate.denominator * WHOLE)
  }

  function ConvertMinor(amount: nat, from: Currency, to: Currency, bps: int): Result<int, MoneyError> {
    var rate :- ExactRate(from, to);
    Success(Truncate(Times(amount, rate.numerator) * (10_000 - bps), rate.denominator * 10_000))
  }

  // ----- Decimal strings -----

  /** A fixed-point numeral: integer digits, a point and exactly d fraction digits. */
  predicate IsFixedPoint(t: Text, d: nat) {
    && |t| >= d + 2
    && t[|t| - d - 1] == POINT
    && AllDigits(t[..|t| - d - 1])
    && AllDigits(t[|t| - d..])
  }

  /** The one way to write such a numeral: no leading zero but the one before the point. */
  predicate IsCanonical(t: Text, d: nat) {
    IsFixedPoint(t, d) && (|t| == d + 2 || t[0] != ZERO)
  }

  /** The numeral's value in units of the last place. */
  function ReadFixed(t: Text, d: nat): nat
    requires IsFixedPoint(t, d)
  {
    Read(t[..|t| - d - 1] + t[|t| - d..])
  }

  /** `s.slice(0, -d)` and `s.slice(-d)`: with d zero, nothing and everything. */
  function SliceHead(t: Text, d: nat): Text
    requires d <= |t|
  {
    if d == 0 then [] else t[..|t| - d]
  }

  function SliceTail(t: Text, d: nat): Text
    requires d <= |t|
  {
    if d == 0 then t else t[|t| - d..]
  }

  function RateString(from: Currency, to: Currency, decimals: nat): Result<Text, MoneyError> {
    var rate :- ExactRate(from, to);
    Success(FixedText(RoundedQuotient(Times(rate.numerator, Pow10(decimals)), rate.denominator), decimals))
  }

  /** Integer division rounded to the nearest, halves up. */
  function RoundedQuotient(n: nat, d: nat): nat
    requires d > 0
  {
    (n + d / 2) / d
  }

  /** An integer with a point put before its last digits. */
  function FixedText(rounded: nat, decimals: nat): Text {
    var raw := PadStart(Digits(rounded), decimals + 1);
    SliceHead(raw, decimals) + [POINT] + SliceTail(raw, decimals)
  }

  /** Hundredths of a percent saved, rounded to the nearest. */
  function SavedUnits(residual: nat, gross: nat): nat
    requires gross > 0
  {
    var saved := if gross > residual then gross - residual else 0;
    RoundedQuotient(saved * 10_000, gross)
  }

  function PercentageSaved(residual: nat, gross: nat): Text {
    if gross == 0 then Ascii("0.00")
    else
      var units := SavedUnits(residual, gross);
      Digits(units / 100) + [POINT] + PadStart(Digits(units % 100), 2)
  }
}
