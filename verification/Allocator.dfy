/**
 Filling a BRL amount from priced, capacity-limited sources, cheapest first.  JavaScript numbers
 are reals here.
 */
module Allocator {
  import opened Sorting

  const DUST: real := 0.005
  const TOLERANCE: real := 0.01

  datatype SourceType = PrivateMarket | Issuer | Neobank | InstitutionalLp | BankTreasury | BankPrincipal

  // A source quotes a positive rate, BRL per EUR, and a capacity in EUR.
  datatype RawSource = Source(kind: SourceType, rate: real, capacity: real, eligible: bool)
  type Source = s: RawSource | s.rate > 0.0 witness Source(Issuer, 1.0, 0.0, false)

  datatype Scenario = Balanced | LpOffline | IssuerPolicyBlocked | TreasuryNearLimit | PrincipalLimit | ReferenceOutage

  const SOURCES: seq<Source> :=
    [ Source(PrivateMarket, 6.035, 1250.0, true),
      Source(Issuer, 6.045, 1500.0, true),
      Source(Neobank, 6.06, 900.0, true),
      Source(InstitutionalLp, 6.07, 1800.0, true),
      Source(BankTreasury, 6.08, 1200.0, true),
      Source(BankPrincipal, 6.095, 5000.0, true) ]

  function SourceForScenario(s: Source, scenario: Scenario): Source {
    match (scenario, s.kind)
    case (LpOffline, InstitutionalLp) => s.(eligible := false, capacity := 0.0)
    case (IssuerPolicyBlocked, Issuer) => s.(eligible := false)
    case (TreasuryNearLimit, BankTreasury) => s.(capacity := 200.0)
    case (PrincipalLimit, BankPrincipal) => s.(capacity := 300.0)
    case (ReferenceOutage, BankPrincipal) => s.(eligible := false, capacity := 0.0)
    case _ => s
  }

  /** What a source is worth in BRL when it is used up. */
  function Worth(s: Source): real { s.capacity * s.rate }

  /** The EUR a BRL amount buys from a source. */
  function Bought(s: Source, used: real): real { used / s.rate }

  function Min(a: real, b: real): real { if a < b then a else b }

  // ----- The sources on offer, cheapest first -----

  predicate Usable(s: Source) { s.eligible && s.capacity > 0.0 }

  function UsableOnes(sources: seq<Source>): (r: seq<Source>)
    ensures forall s :: s in r <==> s in sources && Usable(s)
  {
    if sources == [] then []
    else (if Usable(sources[0]) then [sources[0]] else []) + UsableOnes(sources[1..])
  }

  predicate CheapestFirst(sources: seq<Source>) {
    forall i, j :: 0 <= i < j < |sources| ==> sources[i].rate <= sources[j].rate
  }

  function ByRate(): (Source, Source) -> bool {
    (a: Source, b: Source) => a.rate <= b.rate
  }

  function Available(sources: seq<Source>): (r: seq<Source>)
    ensures forall s :: s in r <==> s in sources && Usable(s)
  {
    Sort(UsableOnes(sources), ByRate())
  }

  /** The sources on offer are the usable ones, each as often as listed, cheapest first. */
  lemma AvailableIsSorted(sources: seq<Source>)
    ensures CheapestFirst(Available(sources))
    ensures multiset(Available(sources)) == multiset(UsableOnes(sources))
  {
    SortSorts(UsableOnes(sources), ByRate());
  }

  // ----- The greedy fill -----

  /** The BRL taken from a source when this much is left to fill. */
  function Take(s: Source, remaining: real): real {
    if remaining <= DUST || Min(remaining, Worth(s)) <= DUST then 0.0 else Min(remaining, Worth(s))
  }

  /** The BRL filled by the first n sources. */
  function Filled(available: seq<Source>, input: real, n: nat): real
    requires n <= |available|
    decreases n, 0
  {
    if n == 0 then 0.0 else Filled(available, input, n - 1) + TakeAt(available, input, n - 1)
  }

  /** The BRL the loop takes from source k. */
  function TakeAt(available: seq<Source>, input: real, k: nat): real
    requires k < |available|
    decreases k, 1
  {
    Take(available[k], input - Filled(available, input, k))
  }

  // A leg of a plan: BRL in and EUR out at one source.
  datatype Leg = Leg(source: Source, input: real, output: real)

  // `paid` adds up the legs' outputs after each is rounded to the cent.
  datatype Plan = Plan(complete: bool, remaining: real, legs: seq<Leg>, paid: real)

  /** The legs from the first n sources. */
  function Legs(available: seq<Source>, input: real, n: nat): seq<Leg>
    requires n <= |available|
  {
    if n == 0 then []
    else
      var used := TakeAt(available, input, n - 1);
      Legs(available, input, n - 1)
      + if used > 0.0 then [Leg(available[n - 1], used, Bought(available[n - 1], used))] else []
  }

  /** `toFixed(2)`, read back: the nearest cent, halves up. */
  function Cents(x: real): real {
    (x * 100.0 + 0.5).Floor as real / 100.0
  }

  /** The sum of the first n legs' outputs, each to the cent. */
  function PaidOut(legs: seq<Leg>, n: nat): real
    requires n <= |legs|
  {
    if n == 0 then 0.0 else PaidOut(legs, n - 1) + Cents(legs[n - 1].output)
  }

  /** The plan for a request. */
  function PlanOf(sources: seq<Source>, input: real): Plan {
    var available := Available(sources);
    var left := input - Filled(available, input, |available|);
    var legs := Legs(available, input, |available|);
    Plan(left <= TOLERANCE, if left > 0.0 then left else 0.0, legs, PaidOut(legs, |legs|))
  }

  /** The allocation loop. */
  method Allocate(sources: seq<Source>, input: real) returns (plan: Plan)
    ensures plan == PlanOf(sources, input)
  {
    var remaining := input;
    var legs := [];
    var available := Available(sources);
    var i := 0;
    while i < |available|
      invariant 0 <= i <= |available|
      invariant remaining == input - Filled(available, input, i)
      invariant legs == Legs(available, input, i)
    {
      if remaining <= DUST {
        NothingMore(available, input, i, |available|);
        break;
      }
      var source := available[i];
      var used := Min(remaining, Worth(source));
      var output := Bought(source, used);
      i := i + 1;
      if used <= DUST {
        continue;
      }
      legs := legs + [Leg(source, used, output)];
      remaining := remaining - used;
    }
    var paid := 0.0;
    for k := 0 to |legs|
      invariant paid == PaidOut(legs, k)
    {
      paid := paid + Cents(legs[k].output);
    }
    plan := Plan(remaining <= TOLERANCE, if remaining > 0.0 then remaining else 0.0, legs, paid);
  }

  /** Once at most dust is left, no later source contributes. */
  lemma {:induction false} NothingMore(available: seq<Source>, input: real, i: nat, j: nat)
    requires i <= j <= |available|
    requires input - Filled(available, input, i) <= DUST
    ensures Filled(available, input, j) == Filled(available, input, i)
    ensures Legs(available, input, j) == Legs(available, input, i)
  {
    if i < j { NothingMore(available, input, i, j - 1); }
  }
}
