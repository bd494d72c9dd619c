/**
 The ranked list of matching providers: the best few, by score and then by name.
 */
module Ranking {
  import opened Wrappers
  import opened Matching
  import opened Sorting

  // Names are compared by a collation key.
  datatype Context = Context(normalize: string -> string, collation: string -> real)

  datatype Match = Match(provider: Provider, score: int)

  /** The matches of a catalogue, in its order. */
  ghost function Matches(catalogue: seq<Provider>, input: Input, ctx: Context): seq<Match> {
    if catalogue == [] then []
    else
      var score := Score(catalogue[0], input, ctx.normalize);
      (if score.Some? then [Match(catalogue[0], score.value)] else []) + Matches(catalogue[1..], input, ctx)
  }

  /** The sort's comparison puts a no later than b. */
  predicate NotAfter(a: Match, b: Match, ctx: Context) {
    a.score > b.score
    || (a.score == b.score && ctx.collation(a.provider.name) <= ctx.collation(b.provider.name))
  }

  predicate Ranked(list: seq<Match>, ctx: Context) {
    forall i, j :: 0 <= i < j < |list| ==> NotAfter(list[i], list[j], ctx)
  }

  function ByScore(ctx: Context): (Match, Match) -> bool {
    (a: Match, b: Match) => NotAfter(a, b, ctx)
  }

  function Slice(list: seq<Match>, limit: int): seq<Match> {
    if limit <= 0 then [] else if limit < |list| then list[..limit] else list
  }

  ghost function TopMatches(catalogue: seq<Provider>, input: Input, limit: int, ctx: Context): seq<Match> {
    Slice(Sort(Matches(catalogue, input, ctx), ByScore(ctx)), limit)
  }

  lemma SortRanks(list: seq<Match>, ctx: Context)
    ensures Ranked(Sort(list, ByScore(ctx)), ctx) && multiset(Sort(list, ByScore(ctx))) == multiset(list)
  {
    assert Orders(ByScore(ctx));
    SortSorts(list, ByScore(ctx));
  }

  /** Nothing of the second list comes before anything of the first. */
  predicate NoneBefore(top: seq<Match>, rest: seq<Match>, ctx: Context) {
    forall x, y :: x in top && y in rest ==> NotAfter(x, y, ctx)
  }

  lemma CutSorted(sorted: seq<Match>, limit: int, ctx: Context)
    requires Ranked(sorted, ctx)
    ensures var top := Slice(sorted, limit);
            && top <= sorted && Ranked(top, ctx) && NoneBefore(top, sorted[|top|..], ctx)
            && |top| == (if limit <= 0 then 0 else if limit < |sorted| then limit else |sorted|)
  {
    var top := Slice(sorted, limit);
    var rest := sorted[|top|..];
    forall x, y | x in top && y in rest ensures NotAfter(x, y, ctx) {
      var i :| 0 <= i < |top| && top[i] == x;
      var j :| 0 <= j < |rest| && rest[j] == y;
      assert sorted[i] == x && sorted[|top| + j] == y;
    }
  }

  /** By falling score, and by rising name among equal scores. */
  predicate ByScoreThenName(x: Match, y: Match, ctx: Context) {
    && x.score >= y.score
    && (x.score == y.score ==> ctx.collation(x.provider.name) <= ctx.collation(y.provider.name))
  }

  /**
   The ranked list holds the best matches: by falling score and then by name, as many as the limit
   allows, and together with the matches left out - none of which has a higher score, or the same and
   an earlier name - all the matches there are.
   */
  lemma TopMatchesAreTheBest(catalogue: seq<Provider>, input: Input, limit: int, ctx: Context)
    returns (rest: seq<Match>)
    ensures var top, all := TopMatches(catalogue, input, limit, ctx), Matches(catalogue, input, ctx);
            && (forall i, j :: 0 <= i < j < |top| ==> ByScoreThenName(top[i], top[j], ctx))
            && (forall x, y :: x in top && y in rest ==> ByScoreThenName(x, y, ctx))
            && multiset(top) + multiset(rest) == multiset(all)
            && |top| == (if limit <= 0 then 0 else if limit < |all| then limit else |all|)
  {
    var all := Matches(catalogue, input, ctx);
    var sorted := Sort(all, ByScore(ctx));
    SortRanks(all, ctx);
    CutSorted(sorted, limit, ctx);
    var top := Slice(sorted, limit);
    rest := sorted[|top|..];
    assert sorted == top + rest;
    forall x, y | NotAfter(x, y, ctx) ensures ByScoreThenName(x, y, ctx) {}
  }

  /** Matches of the same score and name keep the order of the catalogue. */
  lemma TiesKeepTheirOrder(catalogue: seq<Provider>, input: Input, ctx: Context, m: Match)
    ensures var all := Matches(catalogue, input, ctx);
            Alike(Sort(all, ByScore(ctx)), m, ByScore(ctx)) == Alike(all, m, ByScore(ctx))
  {
    assert Orders(ByScore(ctx));
    SortIsStable(Matches(catalogue, input, ctx), m, ByScore(ctx));
  }

  /** The matches of a longer catalogue are those of its parts, in order: none is lost or repeated. */
  lemma {:induction false} MatchesConcat(a: seq<Provider>, b: seq<Provider>, input: Input, ctx: Context)
    ensures Matches(a + b, input, ctx) == Matches(a, input, ctx) + Matches(b, input, ctx)
  {
    if a == [] {
      assert a + b == b;
    } else {
      assert (a + b)[1..] == a[1..] + b;
      MatchesConcat(a[1..], b, input, ctx);
    }
  }

  /** Every listed provider is in the catalogue and matches the blueprint with the score it is ranked by. */
  lemma {:induction false} MatchesAreScored(catalogue: seq<Provider>, input: Input, ctx: Context, m: Match)
    ensures m in Matches(catalogue, input, ctx) <==>
            m.provider in catalogue && Score(m.provider, input, ctx.normalize) == Some(m.score)
  {
    if catalogue != [] { MatchesAreScored(catalogue[1..], input, ctx, m); }
  }
}
