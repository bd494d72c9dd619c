/**
 What the exact conversions promise: no chain of them creates value, splitting an order loses at
 most the roundings, the two engines agree on the spreads both accept, and the printed decimals
 are the nearest ones.
 */
module MoneyLaws {
  import opened Wrappers
  import opened Text
  import opened Decimal
  import opened ExactMoney

  // ----- One conversion -----

  lemma FloorBounds(n: nat, d: nat)
    requires d > 0
    ensures n / d * d <= n < n / d * d + d
  {
  }

  lemma Scale(a: nat, b: nat, c: nat)
    requires a <= b
    ensures a * c <= b * c
  {
  }

  lemma Cancel(a: nat, b: nat, c: nat)
    requires a * c <= b * c && c > 0
    ensures a <= b
  {
    if a > b { Scale(b + 1, a, c); }
  }

  lemma Positive(a: nat, b: nat)
    requires a > 0 && b > 0
    ensures a * b > 0
  {
  }

  lemma Regroup(a: int, b: int, c: int)
    ensures a * b * c == a * (b * c)
    ensures (a + b) * c == a * c + b * c
  {
  }

  /** The floor of the exact amount, cleared of fractions. */
  lemma KeptBounds(amount: nat, rate: Rate, units: nat)
    requires units <= WHOLE
    ensures var paid, worth, d := Kept(amount, rate, units), Times(amount, rate.numerator), rate.denominator * WHOLE;
            paid * d <= Times(worth, WHOLE - units) < paid * d + d
  {
    FloorBounds(Times(Times(amount, rate.numerator), WHOLE - units), rate.denominator * WHOLE);
  }

  /** A conversion never raises amount times mid, and lowers it when a spread bites on something. */
  lemma KeptKeepsValue(amount: nat, rate: Rate, units: nat)
    requires units <= WHOLE
    ensures var after, before := Times(Kept(amount, rate, units), rate.denominator), Times(amount, rate.numerator);
            && after <= before
            && (amount > 0 && units > 0 ==> after < before)
            && (units == 0 ==> before < after + rate.denominator)
  {
    KeptBounds(amount, rate, units);
    var worth, after := Times(amount, rate.numerator), Times(Kept(amount, rate, units), rate.denominator);
    Regroup(Kept(amount, rate, units), rate.denominator, WHOLE);
    assert Times(worth, WHOLE - units) == worth * WHOLE - worth * units by { Regroup(WHOLE - units, units, worth); }
    if amount > 0 && units > 0 {
      Positive(amount, rate.numerator);
      Positive(worth, units);
    }
  }

  // ----- Chains -----

  datatype Hop = Hop(to: Currency, bps: real)

  // An amount held in a currency.
  datatype Holding = Holding(amount: nat, currency: Currency)

  function RunChain(start: Holding, hops: seq<Hop>): Result<Holding, MoneyError> {
    if hops == [] then Success(start)
    else
      var last := hops[|hops| - 1];
      var before :- RunChain(start, hops[..|hops| - 1]);
      var amount :- ConvertWithSpread(before.amount, before.currency, last.to, last.bps);
      Success(Holding(amount, last.to))
  }

  function MidOf(c: Currency): nat {
    if Mid(c).Some? then Mid(c).value else 0
  }

  /** The worth of a holding in millionths of a USD minor unit. */
  function Value(h: Holding): nat { Times(h.amount, MidOf(h.currency)) }

  predicate SomeSpread(hops: seq<Hop>) {
    exists i :: 0 <= i < |hops| && BpsToUnits(hops[i].bps).Success? && BpsToUnits(hops[i].bps).value > 0
  }

  lemma OneHop(before: Holding, hop: Hop)
    requires ConvertWithSpread(before.amount, before.currency, hop.to, hop.bps).Success?
    ensures var after := Holding(ConvertWithSpread(before.amount, before.currency, hop.to, hop.bps).value, hop.to);
            var units := BpsToUnits(hop.bps).value;
            && Value(after) <= Value(before)
            && (before.amount > 0 && units > 0 ==> Value(after) < Value(before))
            && (units == 0 ==> Value(before) < Value(after) + MidOf(hop.to))
  {
    var rate := ExactRate(before.currency, hop.to).value;
    KeptKeepsValue(before.amount, rate, BpsToUnits(hop.bps).value);
  }

  lemma {:induction false} ChainsNeverGain(start: Holding, hops: seq<Hop>)
    requires RunChain(start, hops).Success?
    ensures Value(RunChain(start, hops).value) <= Value(start)
    ensures start.amount > 0 && MidOf(start.currency) > 0 && SomeSpread(hops) ==>
              Value(RunChain(start, hops).value) < Value(start)
  {
    if hops != [] {
      var n := |hops| - 1;
      var before := RunChain(start, hops[..n]).value;
      ChainsNeverGain(start, hops[..n]);
      OneHop(before, hops[n]);
      if SomeSpread(hops) && !SomeSpread(hops[..n]) {
        assert forall k :: 0 <= k < n ==> hops[..n][k] == hops[k];
        var i :| 0 <= i < |hops| && BpsToUnits(hops[i].bps).Success? && BpsToUnits(hops[i].bps).value > 0;
        assert i == n;
        if start.amount > 0 && MidOf(start.currency) > 0 {
          Positive(start.amount, MidOf(start.currency));
        }
      }
    }
  }

  /** A cycle returns no more than it started with, and less if it pays a spread on something. */
  lemma CyclesNeverProfit(start: Holding, hops: seq<Hop>)
    requires RunChain(start, hops).Success? && RunChain(start, hops).value.currency == start.currency
    requires MidOf(start.currency) > 0
    ensures RunChain(start, hops).value.amount <= start.amount
    ensures start.amount > 0 && SomeSpread(hops) ==> RunChain(start, hops).value.amount < start.amount
  {
    ChainsNeverGain(start, hops);
    var finish := RunChain(start, hops).value.amount;
    if finish >= start.amount {
      Scale(start.amount, finish, MidOf(start.currency));
      if finish > start.amount {
        Cancel(finish, start.amount, MidOf(start.currency));
      }
    }
  }

  function MidSum(hops: seq<Hop>): nat {
    if hops == [] then 0 else MidSum(hops[..|hops| - 1]) + MidOf(hops[|hops| - 1].to)
  }

  /** A chain at mid loses less than the destination mids add up to. */
  lemma {:induction false} MidChainsLoseLittle(start: Holding, hops: seq<Hop>)
    requires RunChain(start, hops).Success? && !SomeSpread(hops) && hops != []
    ensures Value(start) < Value(RunChain(start, hops).value) + MidSum(hops)
  {
    var n := |hops| - 1;
    var before := RunChain(start, hops[..n]).value;
    OneHop(before, hops[n]);
    assert BpsToUnits(hops[n].bps).value == 0;
    if n > 0 {
      assert forall i :: 0 <= i < n ==> hops[..n][i] == hops[i];
      MidChainsLoseLittle(start, hops[..n]);
    }
  }

  /** No spread is the mid conversion, and every listed pair converts. */
  lemma ZeroSpreadIsMid(amount: nat, from: Currency, to: Currency)
    ensures ConvertWithSpread(amount, from, to, 0.0) == ConvertAtMid(amount, from, to)
    ensures Mid(from).Some? && Mid(to).Some? <==> ConvertAtMid(amount, from, to).Success?
  {
    if ExactRate(from, to).Success? {
      var rate := ExactRate(from, to).value;
      assert BpsToUnits(0.0) == Success(0);
      SameQuotient(Times(amount, rate.numerator), rate.denominator, WHOLE);
    }
  }

  /** Scaling both sides of a division changes nothing. */
  lemma SameQuotient(n: nat, d: nat, k: nat)
    requires d > 0 && k > 0
    ensures d * k > 0 && n * k / (d * k) == n / d
  {
    var q := n / d;
    FloorBounds(n, d);
    Positive(d, k);
    Scale(q * d, n, k);
    Scale(n + 1, q * d + d, k);
    Regroup(q, d, k);
    Regroup(q * d, d, k);
    Regroup(n, 1, k);
    QuotientIs(n * k, d * k, q);
  }

  lemma QuotientIs(n: nat, d: nat, q: nat)
    requires d > 0 && q * d <= n < q * d + d
    ensures n / d == q
  {
    FloorBounds(n, d);
    var p := n / d;
    if p > q { Scale(q + 1, p, d); }
    if p < q { Scale(p + 1, q, d); }
  }

  lemma QuotientGrows(a: nat, b: nat, d: nat)
    requires a <= b && d > 0
    ensures a / d <= b / d
  {
    FloorBounds(a, d);
    FloorBounds(b, d);
    if a / d > b / d { Scale(b / d + 1, a / d, d); }
  }

  // ----- Splitting an order -----

  function Total(parts: seq<nat>): nat {
    if parts == [] then 0 else Total(parts[..|parts| - 1]) + parts[|parts| - 1]
  }

  function KeptParts(parts: seq<nat>, rate: Rate, units: nat): nat
    requires units <= WHOLE
  {
    if parts == [] then 0
    else KeptParts(parts[..|parts| - 1], rate, units) + Kept(parts[|parts| - 1], rate, units)
  }

  lemma TwoFloors(a: nat, b: nat, d: nat)
    requires d > 0
    ensures a / d + b / d <= (a + b) / d <= a / d + b / d + 1
  {
    FloorBounds(a, d);
    FloorBounds(b, d);
    var x, y := a / d, b / d;
    Regroup(x, y, d);
    Regroup(x + y, 1, d);
    if a + b < (x + y) * d + d {
      QuotientIs(a + b, d, x + y);
    } else {
      QuotientIs(a + b, d, x + y + 1);
    }
  }

  lemma KeptTwo(a: nat, b: nat, rate: Rate, units: nat)
    requires units <= WHOLE
    ensures Kept(a, rate, units) + Kept(b, rate, units) <= Kept(a + b, rate, units)
            <= Kept(a, rate, units) + Kept(b, rate, units) + 1
  {
    var x, y := Times(a, rate.numerator), Times(b, rate.numerator);
    Regroup(a, b, rate.numerator);
    assert Times(a + b, rate.numerator) == x + y;
    Regroup(x, y, WHOLE - units);
    assert Times(x + y, WHOLE - units) == Times(x, WHOLE - units) + Times(y, WHOLE - units);
    TwoFloors(Times(x, WHOLE - units), Times(y, WHOLE - units), rate.denominator * WHOLE);
  }

  /** Splitting an order never pays more, and loses less than one minor unit a part after the first. */
  lemma {:induction false} SplittingLosesOnlyRoundings(parts: seq<nat>, rate: Rate, units: nat)
    requires units <= WHOLE && parts != []
    ensures KeptParts(parts, rate, units) <= Kept(Total(parts), rate, units)
            <= KeptParts(parts, rate, units) + |parts| - 1
  {
    var n := |parts| - 1;
    if n > 0 {
      SplittingLosesOnlyRoundings(parts[..n], rate, units);
      KeptTwo(Total(parts[..n]), parts[n], rate, units);
    } else {
      assert parts[..n] == [];
    }
  }

  // ----- What a conversion pays, and when it throws -----

  /** A conversion pays the largest whole number of minor units its exact value allows. */
  lemma ConvertsDownExactly(amount: nat, from: Currency, to: Currency, bps: real, units: nat)
    requires Mid(from).Some? && Mid(to).Some? && BpsToUnits(bps) == Success(units)
    ensures var found := ConvertWithSpread(amount, from, to, bps);
            && found.Success?
            && var paid, d := found.value, MidOf(to) * WHOLE;
               paid * d <= Times(Times(amount, MidOf(from)), WHOLE - units) < paid * d + d
  {
    KeptBounds(amount, Rate(MidOf(from), MidOf(to)), units);
  }

  /** An integer within the tolerance of a spread in ten-thousandths of a bps. */
  predicate Close(bps: real, units: int) {
    && -0.0000001 <= bps * UNITS_PER_BPS as real - units as real <= 0.0000001
    && -MAX_SAFE_INTEGER <= units <= MAX_SAFE_INTEGER
  }

  lemma CloseIsRounded(bps: real, units: int)
    requires Close(bps, units)
    ensures (bps * UNITS_PER_BPS as real + 0.5).Floor == units
  {
  }

  /** A conversion throws exactly for an unlisted currency, then for a spread too fine, then for one out of range. */
  lemma ConversionThrowsExactly(amount: nat, from: Currency, to: Currency, bps: real)
    ensures var found := ConvertWithSpread(amount, from, to, bps);
            if Mid(from).None? || Mid(to).None? then found == Failure(UnsupportedPair)
            else if !(exists units :: Close(bps, units)) then found == Failure(SpreadTooFine)
            else if !(exists units :: Close(bps, units) && 0 <= units <= WHOLE) then found == Failure(SpreadOutOfRange)
            else found.Success?
  {
    var rounded := (bps * UNITS_PER_BPS as real + 0.5).Floor;
    if units :| Close(bps, units) {
      CloseIsRounded(bps, units);
      forall other | Close(bps, other) ensures other == units { CloseIsRounded(bps, other); }
    } else {
      assert !Close(bps, rounded);
    }
  }

  /** A stablecoin is worth its peg: it converts as the fiat currency does, and one for one into it. */
  lemma PegsConvertOneForOne(amount: nat, from: Currency, to: Currency, bps: real)
    ensures ConvertWithSpread(amount, from, to, bps) == ConvertWithSpread(amount, FiatCode(from), FiatCode(to), bps)
    ensures ConvertAtMid(amount, USDC, USD) == ConvertAtMid(amount, USD, USDC) == Success(amount)
    ensures ConvertAtMid(amount, EURC, EUR) == ConvertAtMid(amount, EUR, EURC) == Success(amount)
  {
    QuotientIs(Times(amount, 1_000_000), 1_000_000, amount);
    QuotientIs(Times(amount, 1_083_000), 1_083_000, amount);
  }

  /** Beyond a whole spread the integer engine pays the negative of what it pays as far below one. */
  lemma BeyondTheWholeMirrors(amount: nat, from: Currency, to: Currency, beyond: nat)
    requires ExactRate(from, to).Success? && beyond <= 10_000
    ensures var below := ConvertMinor(amount, from, to, 10_000 - beyond);
            var above := ConvertMinor(amount, from, to, 10_000 + beyond);
            below.Success? && above.Success? && below.value >= 0 && above.value == -below.value
  {
    var rate := ExactRate(from, to).value;
    var n := Times(amount, rate.numerator);
    var x: int := Times(n, beyond);
    assert 10_000 - (10_000 - beyond) == beyond && 10_000 - (10_000 + beyond) == -1 * beyond;
    Negate(n, beyond);
    TruncateMirrors(x, rate.denominator * 10_000);
    assert n * (10_000 - (10_000 - beyond)) == x;
    assert n * (10_000 - (10_000 + beyond)) == -x;
  }

  lemma Negate(a: nat, b: nat)
    ensures a * (-1 * b) == -1 * Times(a, b)
  {
  }

  lemma TruncateMirrors(n: int, d: nat)
    requires n >= 0 && d > 0
    ensures Truncate(-n, d) == -Truncate(n, d) && Truncate(n, d) >= 0
  {
  }

  // ----- The two engines -----

  /** A spread is so many units exactly when it is within the tolerance of them, and in range. */
  lemma SpreadUnitsExactly(bps: real, units: nat)
    ensures BpsToUnits(bps) == Success(units) <==>
            units <= WHOLE && -0.0000001 <= bps * UNITS_PER_BPS as real - units as real <= 0.0000001
  {
    var scaled := bps * UNITS_PER_BPS as real;
    if -0.0000001 <= scaled - units as real <= 0.0000001 {
      assert (scaled + 0.5).Floor == units;
    }
  }

  lemma FloorOfWhole(n: int)
    ensures (n as real + 0.5).Floor == n
  {
  }

  lemma WholeBps(bps: int)
    ensures BpsToUnits(bps as real) == Success(bps * 10_000) <==> 0 <= bps <= 10_000
    ensures BpsToUnits(bps as real).Success? <==> 0 <= bps <= 10_000
  {
    FloorOfWhole(bps * 10_000);
    assert bps as real * UNITS_PER_BPS as real == (bps * 10_000) as real;
  }

  /** The integer engine gives the fixed-point engine's answer exactly for spreads from 0 to 10000 bps. */
  lemma EnginesAgreeExactlyInRange(amount: nat, from: Currency, to: Currency, bps: int)
    requires ExactRate(from, to).Success?
    ensures ConvertMinor(amount, from, to, bps) == ConvertWithSpread(amount, from, to, bps as real)
            <==> 0 <= bps <= 10_000
  {
    WholeBps(bps);
    if 0 <= bps <= 10_000 {
      EnginesAgree(amount, ExactRate(from, to).value, bps);
    }
  }

  lemma EnginesAgree(amount: nat, rate: Rate, bps: nat)
    requires bps <= 10_000
    ensures Truncate(Times(amount, rate.numerator) * (10_000 - bps), rate.denominator * 10_000)
            == Kept(amount, rate, bps * 10_000)
  {
    var worth := Times(amount, rate.numerator);
    var n := Times(worth, 10_000 - bps);
    Regroup(worth, 10_000 - bps, 10_000);
    assert Times(worth, WHOLE - bps * 10_000) == n * 10_000;
    SameQuotient(n, rate.denominator * 10_000, 10_000);
  }

  /** What the spread takes off the mid conversion. */
  function SpreadTaken(amount: nat, rate: Rate, units: nat): int
    requires units <= WHOLE
  {
    Kept(amount, rate, 0) - Kept(amount, rate, units)
  }

  /** The spread taken is never negative, grows with the spread, and is within a unit of the exact one. */
  lemma SpreadTakenIsFair(amount: nat, rate: Rate, units: nat, more: nat)
    requires units <= more <= WHOLE
    ensures 0 <= SpreadTaken(amount, rate, units) <= SpreadTaken(amount, rate, more)
    ensures var d, exact := rate.denominator * WHOLE, Times(Times(amount, rate.numerator), units);
            exact - d < SpreadTaken(amount, rate, units) * d < exact + d
  {
    var d, worth := rate.denominator * WHOLE, Times(amount, rate.numerator);
    KeptBounds(amount, rate, 0);
    KeptBounds(amount, rate, units);
    Regroup(WHOLE - units, units, worth);
    Regroup(Kept(amount, rate, 0) - Kept(amount, rate, units), Kept(amount, rate, units), d);
    KeptFalls(amount, rate, 0, units);
    KeptFalls(amount, rate, units, more);
  }

  lemma KeptFalls(amount: nat, rate: Rate, units: nat, more: nat)
    requires units <= more <= WHOLE
    ensures Kept(amount, rate, more) <= Kept(amount, rate, units)
  {
    var worth := Times(amount, rate.numerator);
    Scale(WHOLE - more, WHOLE - units, worth);
    QuotientGrows(Times(worth, WHOLE - more), Times(worth, WHOLE - units), rate.denominator * WHOLE);
  }

  // ----- Printed decimals -----

  /** The integer q is the nearest to n / d, the upper one of two. */
  predicate Nearest(q: nat, n: nat, d: nat) {
    2 * (q * d) <= 2 * n + d < 2 * (q * d) + 2 * d
  }

  lemma RoundingIsNearest(n: nat, d: nat)
    requires d > 0
    ensures Nearest(RoundedQuotient(n, d), n, d)
  {
    var q := RoundedQuotient(n, d);
    FloorBounds(n + d / 2, d);
    assert q * d <= n + d / 2 < q * d + d;
  }

  lemma ReadBackFixed(head: Text, tail: Text, d: nat)
    requires AllDigits(head) && AllDigits(tail) && head != [] && |tail| == d
    ensures var t := head + [POINT] + tail; IsFixedPoint(t, d) && ReadFixed(t, d) == Read(head + tail)
  {
    var t := head + [POINT] + tail;
    assert t[..|t| - d - 1] == head && t[|t| - d..] == tail;
  }

  /** Two canonical numerals with the same decimals and the same value are the same text. */
  lemma CanonicalIsUnique(t: Text, u: Text, d: nat)
    requires IsCanonical(t, d) && IsCanonical(u, d) && ReadFixed(t, d) == ReadFixed(u, d)
    ensures t == u
  {
    var a, b := t[..|t| - d - 1], u[..|u| - d - 1];
    var x, y := t[|t| - d..], u[|u| - d..];
    assert t == a + [POINT] + x && u == b + [POINT] + y;
    assert (a + x)[0] == t[0] && (b + y)[0] == u[0];
    if |t| > |u| {
      LongerIsLarger(a + x, b + y);
    } else if |u| > |t| {
      LongerIsLarger(b + y, a + x);
    } else {
      ReadIsInjective(a + x, b + y);
      assert a == (a + x)[..|a|] == b && x == (a + x)[|a|..] == y;
    }
  }

  /** Padded digits have no leading zero unless they were padded. */
  lemma PaddedDigits(n: nat, width: nat)
    ensures var raw := PadStart(Digits(n), width);
            Read(raw) == n && (|raw| > width && |raw| > 1 ==> raw[0] != ZERO)
  {
    ReadOfDigits(n);
    ReadOfPadded(Digits(n), width);
    if n > 0 { DigitsHaveNoLeadingZero(n); }
  }

  lemma PointedDigits(raw: Text, decimals: nat)
    requires AllDigits(raw) && decimals >= 1 && |raw| > decimals
    ensures var t := SliceHead(raw, decimals) + [POINT] + SliceTail(raw, decimals);
            IsFixedPoint(t, decimals) && ReadFixed(t, decimals) == Read(raw) && |t| == |raw| + 1 && t[0] == raw[0]
  {
    var head, tail := raw[..|raw| - decimals], raw[|raw| - decimals..];
    assert head + tail == raw;
    ReadBackFixed(head, tail, decimals);
    assert (head + [POINT] + tail)[0] == head[0];
  }

  lemma FixedTextReadsBack(rounded: nat, decimals: nat)
    ensures IsFixedPoint(FixedText(rounded, decimals), decimals) <==> decimals >= 1
    ensures decimals >= 1 ==> ReadFixed(FixedText(rounded, decimals), decimals) == rounded
    ensures decimals >= 1 ==> IsCanonical(FixedText(rounded, decimals), decimals)
    ensures decimals == 0 ==> FixedText(rounded, 0) == [POINT] + Digits(rounded)
  {
    var raw := PadStart(Digits(rounded), decimals + 1);
    PaddedDigits(rounded, decimals + 1);
    if decimals >= 1 {
      PointedDigits(raw, decimals);
    } else {
      var t := FixedText(rounded, 0);
      assert t == [POINT] + raw;
      assert t[|t| - 1] == raw[|raw| - 1];
    }
  }

  /**
   A rate string is the canonical numeral, with the asked number of decimals, of the nearest value to
   the rate, halves up - exactly when at least one decimal is asked for.
   */
  lemma RateStringReadsBack(from: Currency, to: Currency, decimals: nat)
    requires ExactRate(from, to).Success?
    ensures IsFixedPoint(RateString(from, to, decimals).value, decimals) <==> decimals >= 1
    ensures decimals >= 1 ==>
              var rate := ExactRate(from, to).value;
              IsCanonical(RateString(from, to, decimals).value, decimals) &&
              Nearest(ReadFixed(RateString(from, to, decimals).value, decimals),
                      Times(rate.numerator, Pow10(decimals)), rate.denominator)
  {
    var rate := ExactRate(from, to).value;
    var n, d := Times(rate.numerator, Pow10(decimals)), rate.denominator;
    RoundingIsNearest(n, d);
    FixedTextReadsBack(RoundedQuotient(n, d), decimals);
  }

  function Saved(residual: nat, gross: nat): nat {
    if gross > residual then gross - residual else 0
  }

  lemma PercentageShowsUnits(residual: nat, gross: nat)
    ensures IsCanonical(PercentageSaved(residual, gross), 2)
    ensures ReadFixed(PercentageSaved(residual, gross), 2) == if gross == 0 then 0 else SavedUnits(residual, gross)
  {
    var t := PercentageSaved(residual, gross);
    if gross == 0 {
      assert t == [ZERO] + [POINT] + [ZERO, ZERO];
      ReadBackFixed([ZERO], [ZERO, ZERO], 2);
      ReadZeros(3);
      assert [ZERO] + [ZERO, ZERO] == Zeros(3);
    } else {
      var units := SavedUnits(residual, gross);
      var head, tail := Digits(units / 100), PadStart(Digits(units % 100), 2);
      assert Pow10(2) == 10 * Pow10(1) == 100;
      DigitsLength(units % 100, 2);
      ReadBackFixed(head, tail, 2);
      ReadConcat(head, tail);
      ReadOfDigits(units / 100);
      ReadOfDigits(units % 100);
      ReadOfPadded(Digits(units % 100), 2);
      assert t[0] == head[0];
      if units / 100 > 0 { DigitsHaveNoLeadingZero(units / 100); }
    }
  }

  /** The percentage is the canonical two-decimal numeral, 0.00 to 100.00, nearest to the true one, halves up. */
  lemma PercentageReadsBack(residual: nat, gross: nat)
    ensures IsCanonical(PercentageSaved(residual, gross), 2)
    ensures var shown := ReadFixed(PercentageSaved(residual, gross), 2);
            && shown <= 10_000
            && (if gross == 0 then shown == 0 else Nearest(shown, Saved(residual, gross) * 10_000, gross))
  {
    PercentageShowsUnits(residual, gross);
    if gross > 0 {
      RoundingIsNearest(Saved(residual, gross) * 10_000, gross);
      FloorBounds(Saved(residual, gross) * 10_000 + gross / 2, gross);
      var q := SavedUnits(residual, gross);
      if q > 10_000 { Scale(10_001, q, gross); }
    }
  }

  /** A larger residual never shows a larger saving. */
  lemma PercentageFallsWithResidual(residual: nat, more: nat, gross: nat)
    requires residual <= more
    ensures IsFixedPoint(PercentageSaved(residual, gross), 2) && IsFixedPoint(PercentageSaved(more, gross), 2)
    ensures ReadFixed(PercentageSaved(more, gross), 2) <= ReadFixed(PercentageSaved(residual, gross), 2)
  {
    PercentageShowsUnits(residual, gross);
    PercentageShowsUnits(more, gross);
    if gross > 0 {
      QuotientGrows(Saved(more, gross) * 10_000 + gross / 2, Saved(residual, gross) * 10_000 + gross / 2, gross);
    }
  }
}
