/**
 Overlapping requests of one agent that break its daily ceiling in paid calls, for every limit: an
 answer writes back the quota its request was admitted under, and the day's count starts again.
 */
module TenantOverlap {
  import opened Wrappers
  import opened Quota
  import opened BuilderProtocol
  import opened TenantCeiling

  /** A request admitted, granted and asked in one go. */
  function Served(r: Request, day: Day): seq<Event> {
    [Admit(r, 0, "", day), Reserve(r, day), Ask(r)]
  }

  ghost predicate ServedBetween(s: State, after: State, r: Request, day: Day, limits: Limits) {
    && AgentOf(after, 0).quota == Kept(AgentOf(s, 0).quota, day, limits.tenant)
    && after.budget == Kept(s.budget, day, limits.global)
    && after.admitted == s.admitted[r := Admission(0, day)]
    && after.calls == s.calls + {r}
    && AdmissionsOf(after, 0) == AdmissionsOf(s, 0) + [day]
    && after.open.Keys == s.open.Keys + {r}
    && (forall q :: q in s.open ==> after.open[q] == s.open[q])
    && after.open[r].tenant == 0 && after.open[r].phase.Asking?
    && after.open[r].quota == NextQuota(AgentOf(s, 0).quota, day, limits.tenant).quota
  }

  predicate CanServe(s: State, r: Request, day: Day, limits: Limits) {
    && r !in s.admitted && r !in s.open
    && NextQuota(AgentOf(s, 0).quota, day, limits.tenant).allowed
    && NextQuota(s.budget, day, limits.global).allowed
  }

  lemma ThreeSteps(s: State, r: Request, day: Day, limits: Limits) returns (a: State, b: State, c: State)
    requires CanServe(s, r, day, limits)
    ensures a == Step(s, Admit(r, 0, "", day), limits)
    ensures Enabled(a, Reserve(r, day)) && b == Step(a, Reserve(r, day), limits)
    ensures Enabled(b, Ask(r)) && c == Step(b, Ask(r), limits)
    ensures ServedBetween(s, c, r, day, limits)
  {
    a := Step(s, Admit(r, 0, "", day), limits);
    b := Step(a, Reserve(r, day), limits);
    c := Step(b, Ask(r), limits);
  }

  lemma AfterServed(events: seq<Event>, r: Request, day: Day, limits: Limits)
    requires CanServe(After(events, limits), r, day, limits)
    ensures ServedBetween(After(events, limits), After(events + Served(r, day), limits), r, day, limits)
  {
    var a, b, c := ThreeSteps(After(events, limits), r, day, limits);
    var first := events + [Admit(r, 0, "", day)];
    AfterOneMore(events, Admit(r, 0, "", day), limits);
    AfterOneMore(first, Reserve(r, day), limits);
    AfterOneMore(first + [Reserve(r, day)], Ask(r), limits);
    assert events + Served(r, day) == first + [Reserve(r, day)] + [Ask(r)];
  }

  /** Request 0 on day 1, still waiting for the model, then n requests on day 2. */
  function Busy(n: nat): seq<Event> {
    if n == 0 then Served(0, 1) else Busy(n - 1) + Served(n, 2)
  }

  ghost predicate BusyState(s: State, n: nat) {
    && AgentOf(s, 0).quota == Some(if n == 0 then Quota(1, 1) else Quota(2, n))
    && s.budget == Some(if n == 0 then Quota(1, 1) else Quota(2, n))
    && (forall k: nat :: k in s.admitted <==> k <= n)
    && (forall k: nat :: k in s.open ==> k <= n)
    && (forall k: nat :: 1 <= k <= n ==> k in s.calls && s.admitted[k] == Admission(0, 2))
    && 0 in s.open && s.open[0].tenant == 0 && s.open[0].phase.Asking? && s.open[0].quota == Quota(1, 1)
    && |AdmissionsOf(s, 0)| == n + 1 && AdmissionsOf(s, 0)[0] == 1
    && (forall k :: 1 <= k <= n ==> AdmissionsOf(s, 0)[k] == 2)
  }

  lemma BusyStep(s: State, s': State, n: nat, limits: Limits)
    requires n >= 1 && n <= limits.tenant < limits.global && BusyState(s, n - 1)
    requires AgentOf(s', 0).quota == Kept(AgentOf(s, 0).quota, 2, limits.tenant)
    requires s'.budget == Kept(s.budget, 2, limits.global)
    requires s'.admitted == s.admitted[n := Admission(0, 2)] && s'.calls == s.calls + {n}
    requires AdmissionsOf(s', 0) == AdmissionsOf(s, 0) + [2]
    requires s'.open.Keys == s.open.Keys + {n} && s'.open[0] == s.open[0]
    ensures BusyState(s', n)
  {
  }

  lemma {:induction false} BusyReaches(n: nat, limits: Limits)
    requires limits.tenant >= 1 && n <= limits.tenant < limits.global
    ensures BusyState(After(Busy(n), limits), n)
  {
    if n == 0 {
      AfterServed([], 0, 1, limits);
      assert [] + Served(0, 1) == Served(0, 1);
    } else {
      BusyReaches(n - 1, limits);
      AfterServed(Busy(n - 1), n, 2, limits);
      BusyStep(After(Busy(n - 1), limits), After(Busy(n), limits), n, limits);
    }
  }

  /** The numbers from 1 to n. */
  function FirstNaturals(n: nat): (all: set<nat>)
    ensures |all| == n && forall k :: k in all <==> 1 <= k <= n
  {
    if n == 0 then {} else FirstNaturals(n - 1) + {n}
  }

  lemma AfterLateAnswer(limit: nat, limits: Limits)
    requires limit == limits.tenant >= 1 && limits.global == limit + 1
    ensures var before, after := After(Busy(limit), limits), After(Busy(limit) + [Answer(0, "")], limits);
            && AgentOf(after, 0).quota == Some(Quota(1, 1))
            && after.budget == before.budget && after.admitted == before.admitted && after.calls == before.calls
            && AdmissionsOf(after, 0) == AdmissionsOf(before, 0) && after.open == before.open - {0}
  {
    BusyReaches(limit, limits);
    AfterOneMore(Busy(limit), Answer(0, ""), limits);
  }

  /**
   With overlapping requests on one agent the tenant ceiling fails for every limit: an answer that
   was admitted the day before writes its old quota back, and the day's count starts again.
   */
  lemma OverlapBreaksEveryTenantCeiling(limit: nat) returns (events: seq<Event>, limits: Limits)
    requires limit >= 1
    ensures limits.tenant == limit
    ensures NonDecreasing(AdmissionsOf(After(events, limits), 0))
    ensures |TenantCalls(After(events, limits), 0, 2)| > limit
  {
    limits := Limits(limit, limit + 1);
    BusyReaches(limit, limits);
    AfterLateAnswer(limit, limits);
    var answered := Busy(limit) + [Answer(0, "")];
    events := answered + Served(limit + 1, 2);
    AfterServed(answered, limit + 1, 2, limits);
    var s := After(events, limits);
    OneThenTwos(AdmissionsOf(After(Busy(limit), limits), 0));
    ManyCalls(s, limit + 1);
  }

  lemma OneThenTwos(days: seq<Day>)
    requires days != [] && days[0] == 1 && forall k :: 1 <= k < |days| ==> days[k] == 2
    ensures NonDecreasing(days + [2])
  {
  }

  lemma ManyCalls(s: State, n: nat)
    requires forall k: nat :: 1 <= k <= n ==> k in s.calls && k in s.admitted && s.admitted[k] == Admission(0, 2)
    ensures |TenantCalls(s, 0, 2)| >= n
  {
    SubsetCount(FirstNaturals(n), TenantCalls(s, 0, 2));
  }
}
