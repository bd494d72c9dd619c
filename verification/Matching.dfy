/**
 Matching providers to a blueprint: weighted categories, region fit and rail evidence, ranked by
 score and then by name.
 */
module Matching {
  import opened Wrappers

  datatype Category =
    | Sponsor | Compliance | Accounts | Rails | Stablecoins | Custody | Cards | Fx | OpenBanking | Operations

  datatype Weighted = Weighted(id: Category, weight: nat)

  function CapabilityCategories(capability: string): seq<Weighted> {
    match capability
    case "accounts" => [Weighted(Accounts, 6), Weighted(Sponsor, 3)]
    case "onboarding" => [Weighted(Compliance, 6), Weighted(Sponsor, 1)]
    case "transfers" => [Weighted(Rails, 6), Weighted(Accounts, 1)]
    case "cards" => [Weighted(Cards, 6), Weighted(Sponsor, 1)]
    case "wallets" => [Weighted(Custody, 6), Weighted(Stablecoins, 4)]
    case "fx" => [Weighted(Fx, 6), Weighted(Stablecoins, 2), Weighted(Accounts, 1)]
    case "savings" => [Weighted(Sponsor, 5), Weighted(Accounts, 3)]
    case "business" => [Weighted(Sponsor, 4), Weighted(Accounts, 3), Weighted(Compliance, 2)]
    case "payment_links" => [Weighted(Rails, 6)]
    case "webhooks" => [Weighted(Operations, 6)]
    case _ => []
  }

  function MarketRegions(market: string): seq<string> {
    match market
    case "GLOBAL" => ["Global"]
    case "US" => ["US", "Global"]
    case "GB" => ["UK", "Europe", "Global"]
    case "EU" => ["Europe", "Global"]
    case "SG" => ["APAC", "Global"]
    case "MY" => ["APAC", "Global"]
    case _ => []
  }

  // What the score reads of a provider.  `regions` are normalised, and `rails` holds the rails
  // whose terms occur in its product text.
  datatype Provider = Provider(
    name: string,
    categories: seq<Category>,
    regions: seq<string>,
    rails: set<string>,
    sandbox: bool,
    descriptor: bool)

  datatype Input = Input(markets: seq<string>, capabilities: seq<string>, rails: seq<string>)

  // ----- Category weights -----

  type Weights = map<Category, nat>

  /** Keep the larger weight of a category. */
  function Raise(w: Weights, c: Weighted): Weights {
    w[c.id := if c.id in w && w[c.id] > c.weight then w[c.id] else c.weight]
  }

  function RaiseAll(w: Weights, list: seq<Weighted>, n: nat): Weights
    requires n <= |list|
  {
    if n == 0 then w else Raise(RaiseAll(w, list, n - 1), list[n - 1])
  }

  function WeightsOf(capabilities: seq<string>, n: nat): Weights
    requires n <= |capabilities|
  {
    if n == 0 then map[]
    else
      var list := CapabilityCategories(capabilities[n - 1]);
      RaiseAll(WeightsOf(capabilities, n - 1), list, |list|)
  }

  method FillWeights(capabilities: seq<string>) returns (w: Weights)
    ensures w == WeightsOf(capabilities, |capabilities|)
  {
    w := map[];
    for i := 0 to |capabilities|
      invariant w == WeightsOf(capabilities, i)
    {
      var list := CapabilityCategories(capabilities[i]);
      for j := 0 to |list|
        invariant w == RaiseAll(WeightsOf(capabilities, i), list, j)
      {
        var c := list[j];
        w := w[c.id := if c.id in w && w[c.id] > c.weight then w[c.id] else c.weight];
      }
    }
  }

  /** A capability asks for a category with a weight. */
  predicate Asks(capability: string, c: Category, weight: nat) {
    Weighted(c, weight) in CapabilityCategories(capability)
  }

  ghost predicate AskedBy(capabilities: seq<string>, n: nat, c: Category, weight: nat)
    requires n <= |capabilities|
  {
    exists i :: 0 <= i < n && Asks(capabilities[i], c, weight)
  }

  lemma {:induction false} RaisedWeights(w: Weights, list: seq<Weighted>, n: nat, c: Category)
    requires n <= |list|
    ensures var r := RaiseAll(w, list, n);
            && (c in r <==> c in w || exists j :: 0 <= j < n && list[j].id == c)
            && (c in w ==> w[c] <= r[c])
            && (forall j :: 0 <= j < n && list[j].id == c ==> list[j].weight <= r[c])
            && (c in r ==> (c in w && r[c] == w[c]) || Weighted(c, r[c]) in list)
  {
    if n > 0 { RaisedWeights(w, list, n - 1, c); }
  }

  lemma LastCapabilityAsks(capabilities: seq<string>, n: nat, c: Category, weight: nat)
    requires 0 < n <= |capabilities|
    ensures AskedBy(capabilities, n, c, weight) <==>
            AskedBy(capabilities, n - 1, c, weight) || Asks(capabilities[n - 1], c, weight)
  {
  }

  /** A category's weight is the largest any capability asks of it. */
  lemma {:induction false} WeightsAreLargest(capabilities: seq<string>, n: nat, c: Category)
    requires n <= |capabilities|
    ensures var w := WeightsOf(capabilities, n);
            && (c in w ==> AskedBy(capabilities, n, c, w[c]))
            && (forall weight :: AskedBy(capabilities, n, c, weight) ==> c in w && weight <= w[c])
  {
    if n > 0 {
      WeightsAreLargest(capabilities, n - 1, c);
      var before, w := WeightsOf(capabilities, n - 1), WeightsOf(capabilities, n);
      var list := CapabilityCategories(capabilities[n - 1]);
      RaisedWeights(before, list, |list|, c);
      if c in w { LastCapabilityAsks(capabilities, n, c, w[c]); }
      forall weight | AskedBy(capabilities, n, c, weight) ensures c in w && weight <= w[c] {
        LastCapabilityAsks(capabilities, n, c, weight);
        if Asks(capabilities[n - 1], c, weight) {
          var j :| 0 <= j < |list| && list[j] == Weighted(c, weight);
        }
      }
    }
  }

  // ----- The score -----

  function CategoryScore(categories: seq<Category>, w: Weights): nat {
    if categories == [] then 0
    else (if categories[0] in w then w[categories[0]] else 0) + CategoryScore(categories[1..], w)
  }

  predicate MatchesSome(categories: seq<Category>, w: Weights) {
    exists i :: 0 <= i < |categories| && categories[i] in w
  }

  /** A region is asked for by some market; no market at all asks for the world. */
  ghost predicate Desired(markets: seq<string>, region: string, normalize: string -> string) {
    var requested := if markets == [] then ["GLOBAL"] else markets;
    exists m, r :: m in requested && r in MarketRegions(m) && normalize(r) == region
  }

  ghost predicate FitsAbroad(p: Provider, markets: seq<string>, normalize: string -> string) {
    exists region :: region in p.regions && region != "global" && Desired(markets, region, normalize)
  }

  ghost predicate FitsGlobally(p: Provider, markets: seq<string>, normalize: string -> string) {
    "global" in p.regions && Desired(markets, "global", normalize)
  }

  ghost function RegionScore(p: Provider, markets: seq<string>, normalize: string -> string): int {
    if FitsAbroad(p, markets, normalize) then 4
    else if FitsGlobally(p, markets, normalize) then 2
    else if "GLOBAL" !in markets then -3
    else 0
  }

  function RailCount(p: Provider, rails: seq<string>): nat {
    if rails == [] then 0 else (if rails[0] in p.rails then 1 else 0) + RailCount(p, rails[1..])
  }

  function RailScore(p: Provider, rails: seq<string>): nat {
    if RailCount(p, rails) * 2 < 4 then RailCount(p, rails) * 2 else 4
  }

  /** A provider's score, or none without a matching category. */
  ghost function Score(p: Provider, input: Input, normalize: string -> string): Option<int> {
    var w := WeightsOf(input.capabilities, |input.capabilities|);
    if !MatchesSome(p.categories, w) then None
    else Some(CategoryScore(p.categories, w)
              + RegionScore(p, input.markets, normalize)
              + RailScore(p, input.rails)
              + (if p.sandbox then 1 else 0)
              + (if p.descriptor then 1 else 0))
  }

  // ----- What each part of the score is worth -----

  lemma {:induction false} CategoriesAdd(categories: seq<Category>, more: seq<Category>, w: Weights)
    ensures CategoryScore(categories + more, w) == CategoryScore(categories, w) + CategoryScore(more, w)
  {
    if categories == [] {
      assert categories + more == more;
    } else {
      assert (categories + more)[1..] == categories[1..] + more;
      CategoriesAdd(categories[1..], more, w);
    }
  }

  /** The largest weight any of the capabilities asks of the category, none counting as zero. */
  ghost predicate Heaviest(capabilities: seq<string>, c: Category, weight: nat) {
    && (forall i, asked: nat :: 0 <= i < |capabilities| && Asks(capabilities[i], c, asked) ==> asked <= weight)
    && (weight > 0 ==> exists i :: 0 <= i < |capabilities| && Asks(capabilities[i], c, weight))
  }

  lemma HeaviestIsTheWeight(capabilities: seq<string>, c: Category, weight: nat)
    requires Heaviest(capabilities, c, weight)
    ensures var w := WeightsOf(capabilities, |capabilities|); (if c in w then w[c] else 0) == weight
  {
    var n := |capabilities|;
    WeightsAreLargest(capabilities, n, c);
    var w := WeightsOf(capabilities, n);
    if weight > 0 {
      assert AskedBy(capabilities, n, c, weight);
    }
    if c in w {
      var i :| 0 <= i < n && Asks(capabilities[i], c, w[c]);
    }
  }

  /** A provider matches exactly if some capability asks for one of its categories. */
  lemma MatchesExactly(p: Provider, input: Input, normalize: string -> string)
    ensures Score(p, input, normalize).Some? <==>
            exists k, i, weight: nat :: 0 <= k < |p.categories| && 0 <= i < |input.capabilities|
              && Asks(input.capabilities[i], p.categories[k], weight)
  {
    var n := |input.capabilities|;
    var w := WeightsOf(input.capabilities, n);
    forall k | 0 <= k < |p.categories|
      ensures p.categories[k] in w <==> exists weight :: AskedBy(input.capabilities, n, p.categories[k], weight)
    {
      WeightsAreLargest(input.capabilities, n, p.categories[k]);
    }
    if k, i, weight :| 0 <= k < |p.categories| && 0 <= i < n && Asks(input.capabilities[i], p.categories[k], weight) {
      assert AskedBy(input.capabilities, n, p.categories[k], weight);
    }
    if MatchesSome(p.categories, w) {
      var k :| 0 <= k < |p.categories| && p.categories[k] in w;
      var weight :| AskedBy(input.capabilities, n, p.categories[k], weight);
      var i :| 0 <= i < n && Asks(input.capabilities[i], p.categories[k], weight);
    }
  }

  /** One more category adds the largest weight asked of it to the score of a provider that matches. */
  lemma CategoryAddsItsWeight(p: Provider, c: Category, weight: nat, input: Input, normalize: string -> string)
    requires Score(p, input, normalize).Some? && Heaviest(input.capabilities, c, weight)
    ensures var more := p.(categories := p.categories + [c]);
            && Score(more, input, normalize).Some?
            && Score(more, input, normalize).value == Score(p, input, normalize).value + weight
  {
    var w := WeightsOf(input.capabilities, |input.capabilities|);
    CategoriesAdd(p.categories, [c], w);
    HeaviestIsTheWeight(input.capabilities, c, weight);
    var k :| 0 <= k < |p.categories| && p.categories[k] in w;
    assert (p.categories + [c])[k] in w;
    SameRegions(p, p.(categories := p.categories + [c]), input.markets, normalize);
    SameRails(p, p.(categories := p.categories + [c]), input.rails);
  }

  lemma SameRegions(p: Provider, q: Provider, markets: seq<string>, normalize: string -> string)
    requires p.regions == q.regions
    ensures RegionScore(p, markets, normalize) == RegionScore(q, markets, normalize)
  {
    assert FitsAbroad(p, markets, normalize) <==> FitsAbroad(q, markets, normalize);
  }

  lemma {:induction false} SameRails(p: Provider, q: Provider, rails: seq<string>)
    requires p.rails == q.rails
    ensures RailCount(p, rails) == RailCount(q, rails)
  {
    if rails != [] { SameRails(p, q, rails[1..]); }
  }

  /** With one category of weight w and nothing else, a provider scores w, less 3 if markets are named. */
  lemma BareScore(c: Category, weight: nat, name: string, input: Input, normalize: string -> string)
    requires weight > 0 && Heaviest(input.capabilities, c, weight)
    ensures var p := Provider(name, [c], [], {}, false, false);
            Score(p, input, normalize) == Some(weight + if "GLOBAL" in input.markets then 0 else -3)
  {
    var p := Provider(name, [c], [], {}, false, false);
    OneCategory(c, weight, input.capabilities);
    NoRails(p, input.rails);
    assert !FitsAbroad(p, input.markets, normalize) && !FitsGlobally(p, input.markets, normalize);
  }

  lemma OneCategory(c: Category, weight: nat, capabilities: seq<string>)
    requires weight > 0 && Heaviest(capabilities, c, weight)
    ensures var w := WeightsOf(capabilities, |capabilities|); MatchesSome([c], w) && CategoryScore([c], w) == weight
  {
    HeaviestIsTheWeight(capabilities, c, weight);
    assert [c][0] == c && [c][1..] == [];
  }

  lemma {:induction false} NoRails(p: Provider, rails: seq<string>)
    requires forall i :: 0 <= i < |rails| ==> rails[i] !in p.rails
    ensures RailCount(p, rails) == 0
  {
    if rails != [] { NoRails(p, rails[1..]); }
  }

  /** A provider that fits a named region scores 4 for it, one that serves the world 2, any other as without regions. */
  lemma RegionsAreWorth(p: Provider, input: Input, normalize: string -> string)
    requires Score(p, input, normalize).Some?
    ensures var bare, none := Score(p.(regions := []), input, normalize), if "GLOBAL" in input.markets then 0 else -3;
            bare.Some? && Score(p, input, normalize).value == bare.value +
            if FitsAbroad(p, input.markets, normalize) then 4 - none
            else if FitsGlobally(p, input.markets, normalize) then 2 - none
            else 0
  {
    SameRails(p, p.(regions := []), input.rails);
  }

  /** One matching rail is worth 2, two or more are worth 4. */
  lemma RailsAreWorth(p: Provider, input: Input, normalize: string -> string)
    requires Score(p, input, normalize).Some?
    ensures var bare := Score(p.(rails := {}), input, normalize);
            var matching := |MatchedRails(p, input.rails)|;
            bare.Some? && Score(p, input, normalize).value == bare.value +
            if matching == 0 then 0 else if matching == 1 then 2 else 4
  {
    NoRails(p.(rails := {}), input.rails);
    CountsMatching(p, input.rails);
    SameRegions(p, p.(rails := {}), input.markets, normalize);
  }

  /** The rails asked for that the provider has, as they come. */
  function MatchedRails(p: Provider, rails: seq<string>): seq<string> {
    if rails == [] then []
    else MatchedRails(p, rails[..|rails| - 1])
         + if rails[|rails| - 1] in p.rails then [rails[|rails| - 1]] else []
  }

  lemma {:induction false} CountsMatching(p: Provider, rails: seq<string>)
    ensures RailCount(p, rails) == |MatchedRails(p, rails)|
  {
    if rails != [] {
      var n := |rails| - 1;
      CountsMatching(p, rails[..n]);
      RailCountSplits(p, rails[..n], [rails[n]]);
      assert rails == rails[..n] + [rails[n]] && [rails[n]][1..] == [];
    }
  }

  /** A sandbox and an included descriptor are worth 1 each. */
  lemma FlagsAreWorth(p: Provider, input: Input, normalize: string -> string)
    requires Score(p, input, normalize).Some?
    ensures var bare := Score(p.(sandbox := false, descriptor := false), input, normalize);
            bare.Some? && Score(p, input, normalize).value ==
            bare.value + (if p.sandbox then 1 else 0) + (if p.descriptor then 1 else 0)
  {
    SameRegions(p, p.(sandbox := false, descriptor := false), input.markets, normalize);
    SameRails(p, p.(sandbox := false, descriptor := false), input.rails);
  }

  // ----- More is never worse -----

  predicate Within(a: seq<string>, b: seq<string>) {
    forall x :: x in a ==> x in b
  }

  ghost predicate Below(v: Weights, w: Weights) {
    forall c :: c in v ==> c in w && v[c] <= w[c]
  }

  lemma MoreCapabilitiesWeighMore(a: seq<string>, b: seq<string>)
    requires Within(a, b)
    ensures Below(WeightsOf(a, |a|), WeightsOf(b, |b|))
  {
    var v, w := WeightsOf(a, |a|), WeightsOf(b, |b|);
    forall c | c in v ensures c in w && v[c] <= w[c] {
      WeightsAreLargest(a, |a|, c);
      WeightsAreLargest(b, |b|, c);
      var i :| 0 <= i < |a| && Asks(a[i], c, v[c]);
      assert a[i] in a;
      var j :| 0 <= j < |b| && b[j] == a[i];
      assert AskedBy(b, |b|, c, v[c]);
    }
  }

  lemma {:induction false} HeavierScoresMore(categories: seq<Category>, v: Weights, w: Weights)
    requires Below(v, w)
    ensures CategoryScore(categories, v) <= CategoryScore(categories, w)
    ensures MatchesSome(categories, v) ==> MatchesSome(categories, w)
  {
    if categories != [] { HeavierScoresMore(categories[1..], v, w); }
  }

  lemma MoreMarketsFitMore(p: Provider, a: seq<string>, b: seq<string>, normalize: string -> string)
    requires Within(a, b) && (a == [] ==> b == [])
    ensures RegionScore(p, a, normalize) <= RegionScore(p, b, normalize)
  {
    forall region | Desired(a, region, normalize) ensures Desired(b, region, normalize) {}
  }

  lemma {:induction false} RailCountSplits(p: Provider, a: seq<string>, b: seq<string>)
    ensures RailCount(p, a + b) == RailCount(p, a) + RailCount(p, b)
  {
    if a == [] {
      assert a + b == b;
    } else {
      assert (a + b)[1..] == a[1..] + b;
      RailCountSplits(p, a[1..], b);
    }
  }

  function WithoutAt(rails: seq<string>, i: nat): seq<string>
    requires i < |rails|
  {
    rails[..i] + rails[i + 1..]
  }

  lemma RemoveRail(p: Provider, rails: seq<string>, i: nat)
    requires i < |rails|
    ensures multiset(rails) == multiset(WithoutAt(rails, i)) + multiset{rails[i]}
    ensures RailCount(p, rails) == RailCount(p, WithoutAt(rails, i)) + if rails[i] in p.rails then 1 else 0
  {
    var before, after := rails[..i], rails[i + 1..];
    assert rails == before + ([rails[i]] + after);
    RailCountSplits(p, before, [rails[i]] + after);
    RailCountSplits(p, before, after);
    assert ([rails[i]] + after)[1..] == after;
  }

  lemma {:induction false} MoreRailsCountMore(p: Provider, a: seq<string>, b: seq<string>)
    requires multiset(a) <= multiset(b)
    ensures RailCount(p, a) <= RailCount(p, b)
  {
    if a != [] {
      RemoveRail(p, a, 0);
      assert WithoutAt(a, 0) == a[1..];
      assert a[0] in multiset(b);
      var i :| 0 <= i < |b| && b[i] == a[0];
      RemoveRail(p, b, i);
      CancelOne(multiset(a[1..]), multiset(WithoutAt(b, i)), a[0]);
      MoreRailsCountMore(p, a[1..], WithoutAt(b, i));
    }
  }

  lemma CancelOne(a: multiset<string>, b: multiset<string>, x: string)
    requires a + multiset{x} <= b + multiset{x}
    ensures a <= b
  {
    forall y ensures a[y] <= b[y] {
      assert (a + multiset{x})[y] <= (b + multiset{x})[y];
    }
  }

  /** The second input asks for everything the first does, and names no market only if the first names none. */
  predicate AsksMore(a: Input, b: Input) {
    && Within(a.capabilities, b.capabilities)
    && Within(a.markets, b.markets) && (a.markets == [] ==> b.markets == [])
    && multiset(a.rails) <= multiset(b.rails)
  }

  /** Adding capabilities, rails, or markets to a non-empty list never lowers a score or drops a match. */
  lemma AskingMoreNeverScoresLess(p: Provider, a: Input, b: Input, normalize: string -> string)
    requires AsksMore(a, b)
    ensures Score(p, a, normalize).Some? ==>
              Score(p, b, normalize).Some? && Score(p, a, normalize).value <= Score(p, b, normalize).value
  {
    MoreCapabilitiesWeighMore(a.capabilities, b.capabilities);
    HeavierScoresMore(p.categories,
                      WeightsOf(a.capabilities, |a.capabilities|), WeightsOf(b.capabilities, |b.capabilities|));
    MoreMarketsFitMore(p, a.markets, b.markets, normalize);
    MoreRailsCountMore(p, a.rails, b.rails);
  }

  /** The score ignores the order and repetition of capabilities and markets, and the order of rails. */
  lemma ScoreIgnoresOrder(p: Provider, a: Input, b: Input, normalize: string -> string)
    requires AsksMore(a, b) && AsksMore(b, a)
    ensures Score(p, a, normalize) == Score(p, b, normalize)
  {
    AskingMoreNeverScoresLess(p, a, b, normalize);
    AskingMoreNeverScoresLess(p, b, a, normalize);
  }

  /** What no market, and what one market, asks for. */
  lemma FirstMarketDesires(market: string, region: string, normalize: string -> string)
    requires normalize("Global") == "global"
    ensures Desired([], region, normalize) <==> region == "global"
    ensures MarketRegions(market) != [] ==> Desired([market], "global", normalize)
    ensures MarketRegions(market) == [] ==> !Desired([market], region, normalize)
  {
    assert MarketRegions("GLOBAL") == ["Global"];
    assert Desired([], "global", normalize) by { assert "Global" in MarketRegions("GLOBAL"); }
    if MarketRegions(market) != [] { assert "Global" in MarketRegions(market); }
  }

  lemma FirstMarketRegions(p: Provider, market: string, normalize: string -> string)
    requires normalize("Global") == "global"
    ensures RegionScore(p, [], normalize) <= RegionScore(p, [market], normalize) <==>
            MarketRegions(market) != [] || "global" !in p.regions
  {
    FirstMarketDesires(market, "global", normalize);
    forall region ensures Desired([], region, normalize) <==> region == "global" {
      FirstMarketDesires(market, region, normalize);
    }
    if MarketRegions(market) == [] {
      assert market != "GLOBAL";
      forall region ensures !Desired([market], region, normalize) {
        FirstMarketDesires(market, region, normalize);
      }
    }
  }

  /**
   Adding the first market never lowers a provider's score exactly when the table lists the market, or
   the provider does not serve the whole world: an unlisted market replaces the world by nowhere.
   */
  lemma FirstMarketExactly(p: Provider, input: Input, market: string, normalize: string -> string)
    requires normalize("Global") == "global"
    ensures var before := Score(p, input.(markets := []), normalize);
            var after := Score(p, input.(markets := [market]), normalize);
            && before.Some? == after.Some?
            && (before.Some? ==>
                  (before.value <= after.value <==> MarketRegions(market) != [] || "global" !in p.regions))
  {
    FirstMarketRegions(p, market, normalize);
  }

  /** So it never lowers the score of any provider exactly when the table lists the market. */
  lemma FirstMarketExactlyIfListed(market: string, normalize: string -> string)
    requires normalize("Global") == "global"
    ensures (forall p :: RegionScore(p, [], normalize) <= RegionScore(p, [market], normalize))
            <==> MarketRegions(market) != []
  {
    forall p
      ensures RegionScore(p, [], normalize) <= RegionScore(p, [market], normalize) <==>
              MarketRegions(market) != [] || "global" !in p.regions
    {
      FirstMarketRegions(p, market, normalize);
    }
    var p := Provider("", [], ["global"], {}, false, false);
    assert "global" in p.regions;
    assert RegionScore(p, [], normalize) <= RegionScore(p, [market], normalize) <==> MarketRegions(market) != [];
  }
}
