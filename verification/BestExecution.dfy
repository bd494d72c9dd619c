/**
 What the greedy fill promises: it conserves the request, fills whenever the market can, and gets
 the best output any split of the same amount could get - exactly when no source too small to be
 used quotes a better rate than one that is used.
 */
module BestExecution {
  import opened Allocator

  // ----- Conservation -----

  function LegInputs(legs: seq<Leg>, n: nat): real
    requires n <= |legs|
  {
    if n == 0 then 0.0 else LegInputs(legs, n - 1) + legs[n - 1].input
  }

  function LegOutputs(legs: seq<Leg>, n: nat): real
    requires n <= |legs|
  {
    if n == 0 then 0.0 else LegOutputs(legs, n - 1) + legs[n - 1].output
  }

  lemma TakeIsWithin(s: Source, remaining: real)
    requires Usable(s)
    ensures 0.0 <= Take(s, remaining) <= Worth(s)
    ensures Take(s, remaining) > 0.0 ==> DUST < Take(s, remaining) <= remaining
  {
    assert Worth(s) > 0.0;
  }

  predicate AllUsable(available: seq<Source>) {
    forall k :: 0 <= k < |available| ==> Usable(available[k])
  }

  lemma {:induction false} SumsExtend(legs: seq<Leg>, last: Leg, n: nat)
    requires n <= |legs|
    ensures LegInputs(legs + [last], n) == LegInputs(legs, n)
    ensures LegOutputs(legs + [last], n) == LegOutputs(legs, n)
  {
    if n > 0 { SumsExtend(legs, last, n - 1); }
  }

  lemma {:induction false} LegsAddUp(available: seq<Source>, input: real, n: nat)
    requires n <= |available| && AllUsable(available)
    ensures var legs := Legs(available, input, n);
            && LegInputs(legs, |legs|) == Filled(available, input, n)
            && LegOutputs(legs, |legs|) == GreedyOutput(available, input, n)
  {
    if n > 0 {
      LegsAddUp(available, input, n - 1);
      var before := Legs(available, input, n - 1);
      var s, used := available[n - 1], TakeAt(available, input, n - 1);
      TakeIsWithin(s, input - Filled(available, input, n - 1));
      if used > 0.0 {
        var leg := Leg(s, used, Bought(s, used));
        var legs := before + [leg];
        SumsExtend(before, leg, |before|);
        assert legs[|before|] == leg;
        assert LegInputs(legs, |legs|) == LegInputs(legs, |before|) + used;
        assert LegOutputs(legs, |legs|) == LegOutputs(legs, |before|) + Bought(s, used);
      } else {
        assert before + [] == before;
        assert Bought(s, 0.0) == 0.0;
      }
    }
  }

  lemma {:induction false} LegsAreGood(available: seq<Source>, input: real, n: nat)
    requires n <= |available| && AllUsable(available)
    ensures forall leg :: leg in Legs(available, input, n) ==> GoodLeg(leg, available)
  {
    if n > 0 {
      LegsAreGood(available, input, n - 1);
      TakeIsWithin(available[n - 1], input - Filled(available, input, n - 1));
    }
  }

  /** A leg takes more than dust from a source on offer, and no more than it is worth. */
  predicate GoodLeg(leg: Leg, available: seq<Source>) {
    && leg.source in available
    && DUST < leg.input <= Worth(leg.source)
    && leg.output == Bought(leg.source, leg.input)
  }

  lemma {:induction false} NeverOverfills(available: seq<Source>, input: real, n: nat)
    requires n <= |available| && AllUsable(available)
    ensures 0.0 <= Filled(available, input, n)
    ensures input >= 0.0 ==> Filled(available, input, n) <= input
    ensures input < 0.0 ==> Filled(available, input, n) == 0.0
  {
    if n > 0 {
      NeverOverfills(available, input, n - 1);
      TakeIsWithin(available[n - 1], input - Filled(available, input, n - 1));
    }
  }

  /** Leg inputs and the remainder add up to the request, and every leg stays within its source. */
  lemma FillConserves(sources: seq<Source>, input: real)
    requires input >= 0.0
    ensures var plan := PlanOf(sources, input);
            && LegInputs(plan.legs, |plan.legs|) + plan.remaining == input
            && forall leg :: leg in plan.legs ==>
                 leg.source in sources && Usable(leg.source) && GoodLeg(leg, Available(sources))
  {
    var available := Available(sources);
    LegsAreGood(available, input, |available|);
    LegsAddUp(available, input, |available|);
    NeverOverfills(available, input, |available|);
  }

  // ----- Completeness -----

  /** The source is worth using at all. */
  predicate Normal(s: Source) { Worth(s) > DUST }

  /** What the first n sources can contribute in BRL, those worth no more than dust left out. */
  function Liquidity(available: seq<Source>, n: nat): real
    requires n <= |available|
  {
    if n == 0 then 0.0
    else Liquidity(available, n - 1) + if Normal(available[n - 1]) then Worth(available[n - 1]) else 0.0
  }

  lemma {:induction false} FillsOrRunsOut(available: seq<Source>, input: real, n: nat)
    requires n <= |available| && AllUsable(available)
    ensures Filled(available, input, n) <= Liquidity(available, n)
    ensures input - Filled(available, input, n) <= DUST || Filled(available, input, n) == Liquidity(available, n)
  {
    if n > 0 {
      FillsOrRunsOut(available, input, n - 1);
      TakeIsWithin(available[n - 1], input - Filled(available, input, n - 1));
    }
  }

  /** The plan is complete exactly when the usable sources are worth the request less the tolerance. */
  lemma CompleteExactlyWhenLiquid(sources: seq<Source>, input: real)
    ensures PlanOf(sources, input).complete <==>
            Liquidity(Available(sources), |Available(sources)|) >= input - 0.01
  {
    var available := Available(sources);
    assert AllUsable(available);
    FillsOrRunsOut(available, input, |available|);
  }

  /** A plan can be complete and buy nothing: exactly for requests of dust, or a dry market's tolerance. */
  lemma CompleteForNothing(sources: seq<Source>, input: real)
    ensures PlanOf(sources, input).complete && PlanOf(sources, input).legs == [] <==>
            || input <= 0.005
            || (Liquidity(Available(sources), |Available(sources)|) == 0.0 && input <= 0.01)
  {
    var available := Available(sources);
    var n := |available|;
    assert AllUsable(available);
    FillsOrRunsOut(available, input, n);
    LegsAddUp(available, input, n);
    LegsAreGood(available, input, n);
    NeverOverfills(available, input, n);
    var legs := Legs(available, input, n);
    if input <= DUST {
      NothingMore(available, input, 0, n);
    }
    if legs != [] {
      InputsArePositive(legs, available, |legs|);
    }
  }

  lemma {:induction false} InputsArePositive(legs: seq<Leg>, available: seq<Source>, n: nat)
    requires n <= |legs| && forall leg :: leg in legs ==> GoodLeg(leg, available)
    ensures LegInputs(legs, n) >= 0.0 && (n > 0 ==> LegInputs(legs, n) > 0.0)
  {
    if n > 0 {
      InputsArePositive(legs, available, n - 1);
      assert legs[n - 1] in legs;
    }
  }

  // ----- Rounding -----

  /** An amount to the cent is the only whole number of cents within half a cent, the upper one of two. */
  lemma CentsExactly(x: real, cents: int)
    ensures Cents(x) == cents as real / 100.0 <==> x - 0.005 < cents as real / 100.0 <= x + 0.005
  {
    FloorIs(x * 100.0 + 0.5, cents);
    Hundredth(cents as real, x);
    Hundredths((x * 100.0 + 0.5).Floor as real, cents as real);
  }

  lemma FloorIs(y: real, n: int)
    ensures y.Floor == n <==> n as real <= y < n as real + 1.0
  {
    assert y.Floor as real <= y < y.Floor as real + 1.0;
    if n as real <= y < n as real + 1.0 {
      assert n < y.Floor + 1 && y.Floor < n + 1;
    }
  }

  lemma Hundredth(c: real, x: real)
    ensures x - 0.005 < c / 100.0 <= x + 0.005 <==> c <= x * 100.0 + 0.5 < c + 1.0
  {
    assert c == c / 100.0 * 100.0;
  }

  lemma Hundredths(b: real, c: real)
    ensures b / 100.0 == c / 100.0 <==> b == c
  {
    assert b == b / 100.0 * 100.0 && c == c / 100.0 * 100.0;
  }

  lemma CentsAreWhole(x: real)
    ensures Cents(x) * 100.0 == (Cents(x) * 100.0).Floor as real
  {
  }

  /** What a plan pays is a whole number of cents. */
  lemma {:induction false} PaidInWholeCents(legs: seq<Leg>, n: nat)
    requires n <= |legs|
    ensures PaidOut(legs, n) * 100.0 == (PaidOut(legs, n) * 100.0).Floor as real
  {
    if n > 0 {
      PaidInWholeCents(legs, n - 1);
      CentsAreWhole(legs[n - 1].output);
      WholeSum(PaidOut(legs, n - 1) * 100.0, Cents(legs[n - 1].output) * 100.0);
    }
  }

  lemma WholeSum(x: real, y: real)
    requires x == x.Floor as real && y == y.Floor as real
    ensures x + y == (x + y).Floor as real
  {
    assert x + y == (x.Floor + y.Floor) as real;
  }

  /**
   What a plan pays is the sum of its legs' outputs, each the only whole number of cents within half a
   cent of the exact output, halves up.
   */
  lemma PaysWholeCents(sources: seq<Source>, input: real, cents: seq<int>)
    requires var legs := PlanOf(sources, input).legs;
             |cents| == |legs| && forall k :: 0 <= k < |legs| ==>
               legs[k].output - 0.005 < cents[k] as real / 100.0 <= legs[k].output + 0.005
    ensures PlanOf(sources, input).paid * 100.0 == Sum(cents, |cents|) as real
  {
    CentsAddUp(PlanOf(sources, input).legs, cents, |cents|);
  }

  function Sum(cents: seq<int>, n: nat): int
    requires n <= |cents|
  {
    if n == 0 then 0 else Sum(cents, n - 1) + cents[n - 1]
  }

  lemma {:induction false} CentsAddUp(legs: seq<Leg>, cents: seq<int>, n: nat)
    requires n <= |legs| == |cents|
    requires forall k :: 0 <= k < n ==> legs[k].output - 0.005 < cents[k] as real / 100.0 <= legs[k].output + 0.005
    ensures PaidOut(legs, n) * 100.0 == Sum(cents, n) as real
  {
    if n > 0 {
      CentsAddUp(legs, cents, n - 1);
      CentsExactly(legs[n - 1].output, cents[n - 1]);
    }
  }

  lemma CentsAreClose(x: real)
    ensures -0.005 <= Cents(x) - x <= 0.005
  {
    var y := x * 100.0 + 0.5;
    assert y.Floor as real <= y < y.Floor as real + 1.0;
  }

  /** The cent-rounded output is within half a cent a leg of the exact one. */
  lemma {:induction false} PaidIsClose(legs: seq<Leg>, n: nat)
    requires n <= |legs|
    ensures -0.005 * n as real <= PaidOut(legs, n) - LegOutputs(legs, n) <= 0.005 * n as real
  {
    if n > 0 {
      PaidIsClose(legs, n - 1);
      CentsAreClose(legs[n - 1].output);
    }
  }

  // ----- Best execution -----

  /** A split of an amount over the sources: a BRL input for each, within what it is worth. */
  predicate Feasible(available: seq<Source>, split: seq<real>) {
    |split| == |available| && forall k :: 0 <= k < |split| ==> 0.0 <= split[k] <= Worth(available[k])
  }

  function SplitSum(split: seq<real>, n: nat): real
    requires n <= |split|
  {
    if n == 0 then 0.0 else SplitSum(split, n - 1) + split[n - 1]
  }

  function SplitOutput(available: seq<Source>, split: seq<real>, n: nat): real
    requires n <= |split| == |available|
  {
    if n == 0 then 0.0 else SplitOutput(available, split, n - 1) + Bought(available[n - 1], split[n - 1])
  }

  function GreedyOutput(available: seq<Source>, input: real, n: nat): real
    requires n <= |available|
  {
    if n == 0 then 0.0
    else GreedyOutput(available, input, n - 1) + Bought(available[n - 1], TakeAt(available, input, n - 1))
  }

  /** No split of the amount the loop fills buys more than the loop does. */
  ghost predicate BestFor(available: seq<Source>, input: real) {
    forall split :: Feasible(available, split) && SplitSum(split, |split|) == Filled(available, input, |available|)
      ==> SplitOutput(available, split, |split|) <= GreedyOutput(available, input, |available|)
  }

  /** The request gets past dust to a source worth using. */
  predicate Reaches(available: seq<Source>, input: real, j: nat)
    requires j < |available|
  {
    Normal(available[j]) && input - Liquidity(available, j) > DUST
  }

  /** Every source too small to be used quotes no better than every source the request reaches. */
  predicate NoBargainFor(available: seq<Source>, input: real) {
    forall i, j :: 0 <= i < |available| && 0 <= j < |available| && !Normal(available[i]) && Reaches(available, input, j)
      ==> available[j].rate <= available[i].rate
  }

  /** Every source too small to be used quotes no better than every source worth using. */
  predicate NoDustBargain(available: seq<Source>) {
    forall i, j :: 0 <= i < |available| && 0 <= j < |available| && !Normal(available[i]) && Normal(available[j])
      ==> available[j].rate <= available[i].rate
  }

  /** The loop uses exactly the sources the request reaches. */
  lemma UsesExactlyWhatItReaches(available: seq<Source>, input: real, j: nat)
    requires AllUsable(available) && j < |available|
    ensures TakeAt(available, input, j) > 0.0 <==> Reaches(available, input, j)
  {
    FillsOrRunsOut(available, input, j);
  }

  /** A rate that separates the sources the loop uses up from those it leaves alone. */
  predicate Separates(available: seq<Source>, input: real, price: real) {
    price > 0.0 && forall k :: 0 <= k < |available| ==>
      || (TakeAt(available, input, k) == Worth(available[k]) && available[k].rate <= price)
      || (TakeAt(available, input, k) == 0.0 && price <= available[k].rate)
      || available[k].rate == price
  }

  lemma QuotientOrder(d: real, r: real, s: real)
    requires d >= 0.0 && 0.0 < r <= s
    ensures d / s <= d / r
  {
    var p, q := d / r, d / s;
    assert p * r == d && q * s == d;
    assert p >= 0.0;
    assert p * r <= p * s;
    assert (q - p) * s == q * s - p * s <= 0.0;
  }

  lemma QuotientDifference(a: real, b: real, r: real)
    requires r > 0.0
    ensures a / r - b / r == (a - b) / r
    ensures a / r + b / r == (a + b) / r
    ensures (-a) / r == -(a / r)
  {
  }

  /** At one source the loop beats the split by at least the difference at the separating rate. */
  lemma TermDominates(g: real, x: real, rate: real, price: real)
    requires rate > 0.0 && price > 0.0
    requires (x <= g && rate <= price) || (g <= x && price <= rate) || rate == price
    ensures g / rate - x / rate >= (g - x) / price
  {
    QuotientDifference(g, x, rate);
    if x <= g && rate <= price {
      QuotientOrder(g - x, rate, price);
    } else if g <= x && price <= rate {
      QuotientOrder(x - g, price, rate);
      QuotientDifference(x - g, 0.0, rate);
      QuotientDifference(x - g, 0.0, price);
      assert g - x == -(x - g);
    }
  }

  lemma {:induction false} GreedyDominates(available: seq<Source>, input: real, split: seq<real>, price: real, n: nat)
    requires AllUsable(available) && Separates(available, input, price) && Feasible(available, split)
             && n <= |available|
    ensures GreedyOutput(available, input, n) - SplitOutput(available, split, n)
            >= (Filled(available, input, n) - SplitSum(split, n)) / price
  {
    if n > 0 {
      GreedyDominates(available, input, split, price, n - 1);
      var s := available[n - 1];
      var g, x := TakeAt(available, input, n - 1), split[n - 1];
      TakeIsWithin(s, input - Filled(available, input, n - 1));
      TermDominates(g, x, s.rate, price);
      QuotientDifference(Filled(available, input, n - 1) - SplitSum(split, n - 1), g - x, price);
    }
  }

  /** Once a source worth using is not used up, no later one contributes. */
  lemma UsedUpBefore(available: seq<Source>, input: real, m: nat, k: nat)
    requires AllUsable(available) && m < k < |available|
    requires Normal(available[m]) && TakeAt(available, input, k) > 0.0
    ensures TakeAt(available, input, m) == Worth(available[m])
  {
    if TakeAt(available, input, m) != Worth(available[m]) {
      NothingMore(available, input, m + 1, k);
    }
  }

  lemma {:induction false} LastUsed(available: seq<Source>, input: real, n: nat) returns (last: int)
    requires n <= |available|
    ensures -1 <= last < n && (last >= 0 ==> TakeAt(available, input, last) > 0.0)
    ensures forall k :: last < k < n ==> TakeAt(available, input, k) <= 0.0
  {
    if n == 0 { last := -1; }
    else if TakeAt(available, input, n - 1) > 0.0 { last := n - 1; }
    else { last := LastUsed(available, input, n - 1); }
  }

  /** The rate of the last source used, or the best rate when none is. */
  lemma SeparatingPrice(available: seq<Source>, input: real) returns (price: real)
    requires AllUsable(available) && CheapestFirst(available) && NoBargainFor(available, input) && available != []
    ensures Separates(available, input, price)
  {
    var last := LastUsed(available, input, |available|);
    var at := if last >= 0 then last else 0;
    price := available[at].rate;
    forall k | 0 <= k < |available|
      ensures || (TakeAt(available, input, k) == Worth(available[k]) && available[k].rate <= price)
              || (TakeAt(available, input, k) == 0.0 && price <= available[k].rate)
              || available[k].rate == price
    {
      TakeIsWithin(available[k], input - Filled(available, input, k));
      if k < last {
        UsesExactlyWhatItReaches(available, input, last);
        if Normal(available[k]) { UsedUpBefore(available, input, k, last); }
      }
    }
  }

  lemma NoBargainMeansBest(available: seq<Source>, input: real)
    requires AllUsable(available) && CheapestFirst(available) && NoBargainFor(available, input)
    ensures BestFor(available, input)
  {
    if available != [] {
      var price := SeparatingPrice(available, input);
      forall split | Feasible(available, split) && SplitSum(split, |split|) == Filled(available, input, |available|)
        ensures SplitOutput(available, split, |split|) <= GreedyOutput(available, input, |available|)
      {
        GreedyDominates(available, input, split, price, |available|);
        assert 0.0 / price == 0.0;
      }
    }
  }

  // ----- A bargain too small to be used is a loss on every request that gets past it -----

  lemma {:induction false} LiquidityGrows(available: seq<Source>, n: nat, m: nat)
    requires n <= m <= |available|
    ensures Liquidity(available, n) <= Liquidity(available, m)
  {
    if n < m { LiquidityGrows(available, n, m - 1); }
  }

  /** The loop's own split, with the worth of source i moved from source j to source i. */
  function Shifted(available: seq<Source>, input: real, i: nat, j: nat): (split: seq<real>)
    requires i < |available| && j < |available|
    ensures |split| == |available|
  {
    var moved := Worth(available[i]);
    seq(|available|, k requires 0 <= k < |available| =>
      if k == i then moved
      else if k == j then TakeAt(available, input, k) - moved
      else TakeAt(available, input, k))
  }

  lemma {:induction false} ShiftedSums(available: seq<Source>, input: real, i: nat, j: nat, n: nat)
    requires n <= |available| && i < j < |available| && TakeAt(available, input, i) == 0.0
    ensures var split, moved := Shifted(available, input, i, j), Worth(available[i]);
            && SplitSum(split, n) == Filled(available, input, n) + (if i < n <= j then moved else 0.0)
            && SplitOutput(available, split, n) == GreedyOutput(available, input, n)
               + (if i < n then moved / available[i].rate else 0.0) - (if j < n then moved / available[j].rate else 0.0)
  {
    if n > 0 {
      ShiftedSums(available, input, i, j, n - 1);
      var split, moved := Shifted(available, input, i, j), Worth(available[i]);
      assert SplitSum(split, n) == SplitSum(split, n - 1) + split[n - 1];
      assert SplitOutput(available, split, n)
             == SplitOutput(available, split, n - 1) + Bought(available[n - 1], split[n - 1]);
      if n - 1 == i {
        assert Bought(available[i], 0.0) == 0.0;
      } else if n - 1 == j {
        QuotientDifference(TakeAt(available, input, j), moved, available[j].rate);
      }
    }
  }

  lemma StrictQuotient(d: real, r: real, s: real)
    requires d > 0.0 && 0.0 < r < s
    ensures d / s < d / r
  {
    QuotientOrder(d, r, s);
    var p, q := d / r, d / s;
    assert p * r == d && q * s == d;
    assert p > 0.0;
    assert p * r < p * s;
  }

  lemma BargainMeansLoss(available: seq<Source>, input: real, i: nat, j: nat)
    requires AllUsable(available) && CheapestFirst(available)
    requires i < |available| && j < |available| && !Normal(available[i]) && TakeAt(available, input, j) > 0.0
    requires available[i].rate < available[j].rate
    ensures !BestFor(available, input)
  {
    assert i < j;
    var split := Shifted(available, input, i, j);
    var moved := Worth(available[i]);
    TakeIsWithin(available[i], input - Filled(available, input, i));
    TakeIsWithin(available[j], input - Filled(available, input, j));
    ShiftedSums(available, input, i, j, |available|);
    assert moved > 0.0;
    StrictQuotient(moved, available[i].rate, available[j].rate);
    forall k | 0 <= k < |split| ensures 0.0 <= split[k] <= Worth(available[k]) {
      TakeIsWithin(available[k], input - Filled(available, input, k));
    }
    assert Feasible(available, split);
  }

  lemma BestExactlyWithoutBargain(available: seq<Source>, input: real)
    requires AllUsable(available) && CheapestFirst(available)
    ensures BestFor(available, input) <==> NoBargainFor(available, input)
  {
    if NoBargainFor(available, input) {
      NoBargainMeansBest(available, input);
    } else {
      var i, j :| 0 <= i < |available| && 0 <= j < |available| && !Normal(available[i])
                  && Reaches(available, input, j) && available[i].rate < available[j].rate;
      UsesExactlyWhatItReaches(available, input, j);
      BargainMeansLoss(available, input, i, j);
    }
  }

  /**
   The loop is best for a request if and only if no source too small to be used quotes a better rate
   than a source the request reaches.
   */
  lemma BestExecutionExactly(sources: seq<Source>, input: real)
    ensures BestFor(Available(sources), input) <==> NoBargainFor(Available(sources), input)
  {
    AvailableIsSorted(sources);
    BestExactlyWithoutBargain(Available(sources), input);
  }

  /**
   The loop is best for every request if and only if no source too small to be used quotes a
   better rate than a source worth using.
   */
  lemma BestExecutionExactlyWithoutDustBargains(sources: seq<Source>)
    ensures var available := Available(sources);
            (forall input :: BestFor(available, input)) <==> NoDustBargain(available)
  {
    var available := Available(sources);
    forall input ensures BestFor(available, input) <==> NoBargainFor(available, input) {
      BestExecutionExactly(sources, input);
    }
    if NoBargainFor(available, Oversized(available)) {
      forall j: nat | j < |available| && Normal(available[j]) ensures Reaches(available, Oversized(available), j) {
        LiquidityGrows(available, j, |available|);
      }
    }
    assert BestFor(available, Oversized(available)) <==> NoBargainFor(available, Oversized(available));
  }

  /** A request no market can fill. */
  function Oversized(available: seq<Source>): real { Liquidity(available, |available|) + 1.0 }

  /** Sources all worth using leave no bargain: the plan's exact output is the best there is. */
  lemma BestExecution(sources: seq<Source>, input: real, split: seq<real>)
    requires forall s :: s in sources && Usable(s) ==> Normal(s)
    requires var available := Available(sources);
             Feasible(available, split) && SplitSum(split, |split|) == Filled(available, input, |available|)
    ensures var plan := PlanOf(sources, input);
            var best := SplitOutput(Available(sources), split, |split|);
            && best <= LegOutputs(plan.legs, |plan.legs|)
            && best <= plan.paid + 0.005 * |plan.legs| as real
  {
    var available := Available(sources);
    AvailableIsSorted(sources);
    forall k | 0 <= k < |available| ensures Normal(available[k]) {
      assert available[k] in available;
    }
    NoBargainMeansBest(available, input);
    LegsAddUp(available, input, |available|);
    var legs := Legs(available, input, |available|);
    PaidIsClose(legs, |legs|);
  }

  /** The shipped market, under any scenario. */
  function Market(scenario: Scenario): (sources: seq<Source>)
    ensures |sources| == |SOURCES|
  {
    seq(|SOURCES|, i requires 0 <= i < |SOURCES| => SourceForScenario(SOURCES[i], scenario))
  }

  /** The EUR the first n sources can sell. */
  function CapacityOf(sources: seq<Source>, n: nat): real
    requires n <= |sources|
  {
    if n == 0 then 0.0
    else CapacityOf(sources, n - 1) + if Usable(sources[n - 1]) then sources[n - 1].capacity else 0.0
  }

  /** What each scenario leaves of the market's 11650 EUR. */
  lemma CapacityByScenario(scenario: Scenario)
    ensures CapacityOf(Market(scenario), 6) ==
            match scenario
            case Balanced => 11650.0
            case LpOffline => 9850.0
            case IssuerPolicyBlocked => 10150.0
            case TreasuryNearLimit => 10650.0
            case PrincipalLimit => 6950.0
            case ReferenceOutage => 6650.0
  {
    var m := Market(scenario);
    assert CapacityOf(m, 1) == CapacityOf(m, 0) + if Usable(m[0]) then m[0].capacity else 0.0;
    assert CapacityOf(m, 2) == CapacityOf(m, 1) + if Usable(m[1]) then m[1].capacity else 0.0;
    assert CapacityOf(m, 3) == CapacityOf(m, 2) + if Usable(m[2]) then m[2].capacity else 0.0;
    assert CapacityOf(m, 4) == CapacityOf(m, 3) + if Usable(m[3]) then m[3].capacity else 0.0;
    assert CapacityOf(m, 5) == CapacityOf(m, 4) + if Usable(m[4]) then m[4].capacity else 0.0;
  }

  /** Every usable source of the shipped market is worth using. */
  lemma ShippedMarketHasNoDust(scenario: Scenario, s: Source)
    requires s in Market(scenario) && Usable(s)
    ensures Normal(s)
  {
    var i :| 0 <= i < |SOURCES| && s == SourceForScenario(SOURCES[i], scenario);
    assert s.rate >= 6.0 && s.capacity >= 200.0;
  }

  /** So every request the shipped market serves, under any scenario, gets best execution. */
  lemma ShippedMarketIsAlwaysBest(scenario: Scenario, input: real)
    ensures BestFor(Available(Market(scenario)), input)
  {
    var available := Available(Market(scenario));
    forall i | 0 <= i < |available| ensures Normal(available[i]) {
      assert available[i] in available;
      ShippedMarketHasNoDust(scenario, available[i]);
    }
    BestExecutionExactly(Market(scenario), input);
  }
}
