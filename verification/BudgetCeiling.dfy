/**
 The global ceiling exactly, for the one limit configured: which orders of day stamps at the budget
 object let the paid calls of a day exceed it.
 */
module BudgetCeiling {
  import opened Wrappers
  import opened Quota
  import opened BuilderAgent
  import opened BuilderProtocol

  /** In every run the reservations granted for a day are within the limit exactly when its stamps keep it. */
  lemma GrantedExactly(events: seq<Event>, limits: Limits, day: Day)
    ensures var s := After(events, limits);
            |Where(s.grants, day)| <= limits.global <==> StampsKeep(s.stamps, limits.global, day)
  {
    GlobalInvariantHolds(events, limits);
    CeilingExactly(After(events, limits).stamps, limits.global, day);
  }

  // ----- A run that pays for every grant -----

  /** Request n of its own tenant, stamped at the budget, and asked if granted. */
  function Visit(n: nat, stamp: Day): seq<Event> {
    [Admit(n, n, "", stamp), Reserve(n, stamp), Ask(n)]
  }

  function Visits(stamps: seq<Day>): seq<Event> {
    if stamps == [] then []
    else Visits(stamps[..|stamps| - 1]) + Visit(|stamps| - 1, stamps[|stamps| - 1])
  }

  /** Only the first n requests and tenants have been seen, and every grant was paid for. */
  ghost predicate Visited(s: State, n: nat, stamps: seq<Day>) {
    && s.stamps == stamps && s.calls == s.grants.Keys
    && (forall r: nat :: r in s.admitted || r in s.open || r in s.grants || r in s.agents ==> r < n)
  }

  lemma OneVisit(s: State, n: nat, stamps: seq<Day>, stamp: Day, limits: Limits) returns (a: State, b: State, c: State)
    requires Visited(s, n, stamps) && limits.tenant > 0
    ensures Enabled(s, Admit(n, n, "", stamp)) && a == Step(s, Admit(n, n, "", stamp), limits)
    ensures Enabled(a, Reserve(n, stamp)) && b == Step(a, Reserve(n, stamp), limits)
    ensures c == if Enabled(b, Ask(n)) then Step(b, Ask(n), limits) else b
    ensures Visited(c, n + 1, stamps + [stamp])
  {
    assert n !in s.admitted && n !in s.agents && n !in s.grants;
    a := Step(s, Admit(n, n, "", stamp), limits);
    b := Step(a, Reserve(n, stamp), limits);
    c := if Enabled(b, Ask(n)) then Step(b, Ask(n), limits) else b;
  }

  lemma {:induction false} VisitsReach(stamps: seq<Day>, limits: Limits)
    requires limits.tenant > 0
    ensures Visited(After(Visits(stamps), limits), |stamps|, stamps)
  {
    if stamps != [] {
      var n := |stamps| - 1;
      var before, stamp := Visits(stamps[..n]), stamps[n];
      VisitsReach(stamps[..n], limits);
      var a, b, c := OneVisit(After(before, limits), n, stamps[..n], stamp, limits);
      var first := before + [Admit(n, n, "", stamp)];
      AfterOneMore(before, Admit(n, n, "", stamp), limits);
      AfterOneMore(first, Reserve(n, stamp), limits);
      AfterOneMore(first + [Reserve(n, stamp)], Ask(n), limits);
      assert before + Visit(n, stamp) == first + [Reserve(n, stamp)] + [Ask(n)];
      assert stamps[..n] + [stamp] == stamps;
    }
  }

  /** Every order of stamps is reached by a run whose paid calls of each day are all the grants it allows. */
  lemma SomeRunPaysForEveryGrant(stamps: seq<Day>, limits: Limits, day: Day)
    requires limits.tenant > 0
    ensures var s := After(Visits(stamps), limits);
            s.stamps == stamps && |CallsStamped(s, day)| == Grants(stamps, limits.global, day)
  {
    var s := After(Visits(stamps), limits);
    VisitsReach(stamps, limits);
    GlobalInvariantHolds(Visits(stamps), limits);
    assert CallsStamped(s, day) == Where(s.grants, day);
  }

  /** Every run whose stamps reach the budget in this order keeps the day's paid calls within the limit. */
  ghost predicate EveryRunKeeps(stamps: seq<Day>, limits: Limits, day: Day) {
    forall events :: After(events, limits).stamps == stamps ==>
      |CallsStamped(After(events, limits), day)| <= limits.global
  }

  /**
   The paid calls of a day stay within the global limit in every run with given stamps if and only if
   the day's stamps form one block or are no more than the limit; otherwise some run exceeds it.
   */
  lemma GlobalCeilingExactly(stamps: seq<Day>, limits: Limits, day: Day)
    requires limits.tenant > 0
    ensures EveryRunKeeps(stamps, limits, day) <==> StampsKeep(stamps, limits.global, day)
  {
    CeilingExactly(stamps, limits.global, day);
    SomeRunPaysForEveryGrant(stamps, limits, day);
    if StampsKeep(stamps, limits.global, day) {
      forall events | After(events, limits).stamps == stamps
        ensures |CallsStamped(After(events, limits), day)| <= limits.global
      {
        GlobalCeiling(events, limits, day);
      }
    }
  }

  /** As many stamps of day 1 as the limit, one of day 2, and one more of day 1. */
  function Midnight(limit: nat): seq<Day> {
    seq(limit, i => 1) + [2, 1]
  }

  /** Two clocks that disagree around midnight break every global limit. */
  lemma MidnightBreaksEveryGlobalCeiling(limits: Limits)
    requires limits.tenant > 0 && limits.global > 0
    ensures var s := After(Visits(Midnight(limits.global)), limits);
            |CallsStamped(s, 1)| > limits.global
  {
    var ones: seq<Day> := seq(limits.global, i => 1);
    var stamps := Midnight(limits.global);
    assert stamps[0] == 1 && stamps[limits.global] == 2 && stamps[limits.global + 1] == 1;
    OnesCount(ones);
    assert multiset(stamps) == multiset(ones) + multiset{2, 1};
    CeilingExactly(stamps, limits.global, 1);
    SomeRunPaysForEveryGrant(stamps, limits, 1);
  }

  lemma {:induction false} OnesCount(ones: seq<Day>)
    requires forall i :: 0 <= i < |ones| ==> ones[i] == 1
    ensures multiset(ones)[1] == |ones|
  {
    if ones != [] {
      OnesCount(ones[1..]);
      assert ones == [1] + ones[1..];
    }
  }
}
