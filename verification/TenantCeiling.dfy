/**
 The tenant's daily ceiling when requests of one agent may overlap.  An answer writes back the quota
 its request captured; the ceiling survives exactly as long as that is the quota still stored.
 */
module TenantCeiling {
  import opened Wrappers
  import opened Quota
  import opened BuilderAgent
  import opened BuilderProtocol

  /** An answer that would write back a quota other than the stored one. */
  predicate Stale(s: State, e: Event, t: Tenant) {
    && e.Answer? && Enabled(s, e) && s.open[e.request].tenant == t
    && AgentOf(s, t).quota != Some(s.open[e.request].quota)
  }

  predicate NothingStale(events: seq<Event>, limits: Limits, t: Tenant) {
    forall n :: 0 <= n < |events| ==> !Stale(After(events[..n], limits), events[n], t)
  }

  lemma NothingStaleBefore(events: seq<Event>, limits: Limits, t: Tenant, n: nat)
    requires n <= |events| && NothingStale(events, limits, t)
    ensures NothingStale(events[..n], limits, t)
  {
    forall k | 0 <= k < n ensures !Stale(After(events[..n][..k], limits), events[..n][k], t) {
      assert events[..n][..k] == events[..k];
    }
  }

  // ----- Without stale answers the quota counts every admission -----

  /** The tenant's quota is what its admissions make it, and as many requests are admitted as they allow. */
  ghost predicate AdmissionCounts(s: State, t: Tenant, limit: nat) {
    && AgentOf(s, t).quota == Book(AdmissionsOf(s, t), limit)
    && (forall d :: |Where(s.admitted, Admission(t, d))| == Grants(AdmissionsOf(s, t), limit, d))
  }

  /** An admission keeps the tenant's admissions of every day in step with its clock. */
  lemma AdmissionCountsOne(days: seq<Day>, admitted: map<Request, Admission>, r: Request, t: Tenant, day: Day,
                           limit: nat, other: Day)
    requires r !in admitted && |Where(admitted, Admission(t, other))| == Grants(days, limit, other)
    ensures Kept(Book(days, limit), day, limit) == Book(days + [day], limit)
    ensures var after := if Granted(days, day, limit) then admitted[r := Admission(t, day)] else admitted;
            |Where(after, Admission(t, other))| == Grants(days + [day], limit, other)
  {
    BookExtends(days, day, limit, other);
    OneMore(admitted, r, Admission(t, day), Admission(t, other));
  }

  lemma AdmitCounts(s: State, e: Event, limits: Limits, t: Tenant)
    requires e.Admit? && Enabled(s, e) && AdmissionCounts(s, t, limits.tenant)
    ensures AdmissionCounts(Step(s, e, limits), t, limits.tenant)
  {
    if e.tenant == t {
      OwnAdmitCounts(s, e, Step(s, e, limits), limits.tenant);
    } else {
      ForeignAdmitCounts(s, e, limits, t);
    }
  }

  lemma OwnAdmitCounts(s: State, e: Event, after: State, limit: nat)
    requires e.Admit? && e.request !in s.admitted && AdmissionCounts(s, e.tenant, limit)
    requires AdmissionsOf(after, e.tenant) == AdmissionsOf(s, e.tenant) + [e.day]
    requires AgentOf(after, e.tenant).quota == Kept(AgentOf(s, e.tenant).quota, e.day, limit)
    requires after.admitted == if NextQuota(AgentOf(s, e.tenant).quota, e.day, limit).allowed
                               then s.admitted[e.request := Admission(e.tenant, e.day)] else s.admitted
    ensures AdmissionCounts(after, e.tenant, limit)
  {
    var t, days := e.tenant, AdmissionsOf(s, e.tenant);
    AdmissionCountsOne(days, s.admitted, e.request, t, e.day, limit, e.day);
    forall d ensures |Where(after.admitted, Admission(t, d))| == Grants(AdmissionsOf(after, t), limit, d) {
      AdmissionCountsOne(days, s.admitted, e.request, t, e.day, limit, d);
    }
  }

  lemma ForeignAdmitCounts(s: State, e: Event, limits: Limits, t: Tenant)
    requires e.Admit? && e.tenant != t && Enabled(s, e) && AdmissionCounts(s, t, limits.tenant)
    ensures AdmissionCounts(Step(s, e, limits), t, limits.tenant)
  {
    var s' := Step(s, e, limits);
    forall d ensures |Where(s'.admitted, Admission(t, d))| == |Where(s.admitted, Admission(t, d))| {
      OneMore(s.admitted, e.request, Admission(e.tenant, e.day), Admission(t, d));
    }
  }

  /** Only admissions count, and an answer that is not stale writes back the quota that is already there. */
  lemma CountsKept(s: State, e: Event, limits: Limits, t: Tenant)
    requires Enabled(s, e) && !Stale(s, e, t) && AdmissionCounts(s, t, limits.tenant)
    ensures AdmissionCounts(Step(s, e, limits), t, limits.tenant)
  {
    if e.Admit? {
      AdmitCounts(s, e, limits, t);
    } else {
      var s' := Step(s, e, limits);
      assert AgentOf(s', t).quota == AgentOf(s, t).quota && AdmissionsOf(s', t) == AdmissionsOf(s, t);
      forall d ensures Where(s'.admitted, Admission(t, d)) == Where(s.admitted, Admission(t, d)) {}
    }
  }

  lemma {:induction false} CountsHold(events: seq<Event>, limits: Limits, t: Tenant)
    requires NothingStale(events, limits, t)
    ensures AdmissionCounts(After(events, limits), t, limits.tenant)
  {
    if events == [] {
      forall d ensures |Where(START.admitted, Admission(t, d))| == 0 {
        assert Where(START.admitted, Admission(t, d)) == {};
      }
    } else {
      var n := |events| - 1;
      NothingStaleBefore(events, limits, t, n);
      CountsHold(events[..n], limits, t);
      if Enabled(After(events[..n], limits), events[n]) {
        CountsKept(After(events[..n], limits), events[n], limits, t);
      }
    }
  }

  /** Without stale answers no more requests are admitted, let alone paid for, than a day's limit. */
  lemma TenantCeiling(events: seq<Event>, limits: Limits, t: Tenant, day: Day)
    requires NothingStale(events, limits, t) && Contiguous(AdmissionsOf(After(events, limits), t), day)
    ensures |Where(After(events, limits).admitted, Admission(t, day))| <= limits.tenant
    ensures |TenantCalls(After(events, limits), t, day)| <= limits.tenant
  {
    var s := After(events, limits);
    CountsHold(events, limits, t);
    ContiguousGrants(AdmissionsOf(s, t), limits.tenant, day);
    SubsetCount(TenantCalls(s, t, day), Where(s.admitted, Admission(t, day)));
  }

  /** Without stale answers a day's admissions are within the limit exactly when the clock's stamps keep it. */
  lemma AdmissionsExactly(events: seq<Event>, limits: Limits, t: Tenant, day: Day)
    requires NothingStale(events, limits, t)
    ensures var s := After(events, limits);
            |Where(s.admitted, Admission(t, day))| <= limits.tenant <==>
            StampsKeep(AdmissionsOf(s, t), limits.tenant, day)
  {
    CountsHold(events, limits, t);
    CeilingExactly(AdmissionsOf(After(events, limits), t), limits.tenant, day);
  }

  /** Under clocks that never run back, both ceilings hold for every day. */
  lemma ClocksKeepBothCeilings(events: seq<Event>, limits: Limits, t: Tenant, day: Day)
    requires NothingStale(events, limits, t)
    requires NonDecreasing(After(events, limits).stamps) && NonDecreasing(AdmissionsOf(After(events, limits), t))
    ensures |CallsStamped(After(events, limits), day)| <= limits.global
    ensures |TenantCalls(After(events, limits), t, day)| <= limits.tenant
  {
    var s := After(events, limits);
    NonDecreasingIsContiguous(s.stamps, day);
    NonDecreasingIsContiguous(AdmissionsOf(s, t), day);
    GlobalCeiling(events, limits, day);
    TenantCeiling(events, limits, t, day);
  }

  // ----- After a stale answer the ceiling can be broken -----

  lemma AdmissionsKept(s: State, e: Event, limits: Limits, t: Tenant)
    requires Enabled(s, e)
    ensures AdmissionsOf(Step(s, e, limits), t)
            == AdmissionsOf(s, t) + if e.Admit? && e.tenant == t then [e.day] else []
  {
  }

  lemma {:induction false} AdmissionsGrow(events: seq<Event>, more: seq<Event>, limits: Limits, t: Tenant)
    ensures AdmissionsOf(After(events, limits), t) <= AdmissionsOf(After(events + more, limits), t)
  {
    if more == [] {
      assert events + more == events;
    } else {
      var n := |more| - 1;
      var before := events + more[..n];
      AdmissionsGrow(events, more[..n], limits, t);
      assert events + more == before + [more[n]];
      AfterOneMore(before, more[n], limits);
      if Enabled(After(before, limits), more[n]) { AdmissionsKept(After(before, limits), more[n], limits, t); }
    }
  }

  lemma OrderedBefore(events: seq<Event>, limits: Limits, t: Tenant, n: nat)
    requires n <= |events| && NonDecreasing(AdmissionsOf(After(events, limits), t))
    ensures NonDecreasing(AdmissionsOf(After(events[..n], limits), t))
  {
    AdmissionsGrow(events[..n], events[n..], limits, t);
    assert events[..n] + events[n..] == events;
  }

  /** The one quota is from an earlier day, or from no later a point of the same day. */
  predicate NoLater(q: Quota, stored: Quota) {
    q.day < stored.day || (q.day == stored.day && q.used <= stored.used)
  }

  /** Whatever a request captured, the stored quota has only moved on since. */
  predicate CapturedEarlier(s: State, t: Tenant) {
    forall r :: r in s.open && s.open[r].tenant == t ==>
      AgentOf(s, t).quota.Some? && NoLater(s.open[r].quota, AgentOf(s, t).quota.value)
  }

  lemma AdmitMovesOn(s: State, e: Event, limits: Limits, t: Tenant)
    requires e.Admit? && e.tenant == t && Enabled(s, e)
    requires AdmissionCounts(s, t, limits.tenant) && CapturedEarlier(s, t)
    requires NonDecreasing(AdmissionsOf(s, t) + [e.day])
    ensures CapturedEarlier(Step(s, e, limits), t)
  {
    var days := AdmissionsOf(s, t);
    if limits.tenant > 0 && days != [] {
      BookHoldsLastDay(days, limits.tenant);
      assert (days + [e.day])[|days| - 1] <= (days + [e.day])[|days|];
    } else {
      NoStampNoGrant(days, limits.tenant, e.day);
    }
    var s' := Step(s, e, limits);
    forall r | r in s'.open && s'.open[r].tenant == t
      ensures AgentOf(s', t).quota.Some? && NoLater(s'.open[r].quota, AgentOf(s', t).quota.value)
    {
      if r in s.open && r != e.request { assert s'.open[r] == s.open[r]; }
    }
  }

  lemma StaysEarlier(s: State, e: Event, limits: Limits, t: Tenant)
    requires Enabled(s, e) && !Stale(s, e, t) && CapturedEarlier(s, t)
    requires AdmissionCounts(s, t, limits.tenant) && NonDecreasing(AdmissionsOf(Step(s, e, limits), t))
    ensures CapturedEarlier(Step(s, e, limits), t)
  {
    var s' := Step(s, e, limits);
    if e.Admit? && e.tenant == t {
      AdmissionsKept(s, e, limits, t);
      AdmitMovesOn(s, e, limits, t);
    } else {
      assert AgentOf(s', t).quota == AgentOf(s, t).quota;
      forall r | r in s'.open && s'.open[r].tenant == t
        ensures r in s.open && s.open[r].tenant == t && s'.open[r].quota == s.open[r].quota
      {
        TurnWasOpen(s, e, limits, t, r);
      }
    }
  }

  lemma TurnWasOpen(s: State, e: Event, limits: Limits, t: Tenant, r: Request)
    requires Enabled(s, e) && !(e.Admit? && e.tenant == t)
    requires r in Step(s, e, limits).open && Step(s, e, limits).open[r].tenant == t
    ensures r in s.open && s.open[r].tenant == t && Step(s, e, limits).open[r].quota == s.open[r].quota
  {
  }

  lemma {:induction false} CapturesHold(events: seq<Event>, limits: Limits, t: Tenant)
    requires NothingStale(events, limits, t) && NonDecreasing(AdmissionsOf(After(events, limits), t))
    ensures CapturedEarlier(After(events, limits), t)
  {
    if events != [] {
      var n := |events| - 1;
      NothingStaleBefore(events, limits, t, n);
      OrderedBefore(events, limits, t, n);
      CapturesHold(events[..n], limits, t);
      CountsHold(events[..n], limits, t);
      if Enabled(After(events[..n], limits), events[n]) {
        StaysEarlier(After(events[..n], limits), events[n], limits, t);
      }
    }
  }

  /** How much of a day a quota accounts for. */
  function UsedOn(quota: Option<Quota>, day: Day): nat {
    if quota.Some? && quota.value.day == day then quota.value.used else 0
  }

  /** The quota accounts for fewer requests of the day than were admitted, and the clock has not passed it. */
  ghost predicate Undercounts(s: State, t: Tenant, day: Day) {
    && UsedOn(AgentOf(s, t).quota, day) < |Where(s.admitted, Admission(t, day))|
    && NonDecreasing(AdmissionsOf(s, t)) && forall d :: d in AdmissionsOf(s, t) ==> d <= day
  }

  /** A stale answer leaves the quota short of the latest day's admissions. */
  lemma StaleAnswerUndercounts(s: State, e: Event, limits: Limits, t: Tenant) returns (day: Day)
    requires Stale(s, e, t) && CapturedEarlier(s, t) && AdmissionCounts(s, t, limits.tenant)
    requires NonDecreasing(AdmissionsOf(s, t))
    ensures Undercounts(Step(s, e, limits), t, day)
  {
    var days := AdmissionsOf(s, t);
    var stored := AgentOf(s, t).quota.value;
    day := stored.day;
    if limits.tenant == 0 || days == [] { NoStampNoGrant(days, limits.tenant, day); }
    BookHoldsLastDay(days, limits.tenant);
    NonDecreasingIsContiguous(days, day);
    ContiguousGrants(days, limits.tenant, day);
    var s' := Step(s, e, limits);
    assert s'.admitted == s.admitted && AdmissionsOf(s', t) == days;
    assert AgentOf(s', t).quota == Some(s.open[e.request].quota);
  }

  predicate AdmitsOnly(events: seq<Event>, t: Tenant) {
    forall k :: 0 <= k < |events| ==> events[k].Admit? && events[k].tenant == t
  }

  lemma {:induction false} FreshRequest(used: set<Request>) returns (unused: Request)
    ensures forall r :: r in used ==> r < unused
  {
    if used == {} {
      unused := 0;
    } else {
      var r :| r in used;
      var rest := FreshRequest(used - {r});
      unused := if rest <= r then r + 1 else rest;
      assert forall q :: q in used ==> q == r || q in used - {r};
    }
  }

  /** From an undercounting quota, serving until refusal admits more than the limit. */
  lemma {:induction false} OverAdmission(events: seq<Event>, limits: Limits, t: Tenant, day: Day)
    returns (more: seq<Event>)
    requires Undercounts(After(events, limits), t, day)
    ensures AdmitsOnly(more, t) && NonDecreasing(AdmissionsOf(After(events + more, limits), t))
    ensures |Where(After(events + more, limits).admitted, Admission(t, day))| > limits.tenant
    decreases limits.tenant - |Where(After(events, limits).admitted, Admission(t, day))|
  {
    var s := After(events, limits);
    if |Where(s.admitted, Admission(t, day))| > limits.tenant {
      more := [];
      assert events + more == events;
    } else {
      var r := FreshRequest(s.admitted.Keys);
      var e := Admit(r, t, "", day);
      AfterOneMore(events, e, limits);
      OneMore(s.admitted, r, Admission(t, day), Admission(t, day));
      StillUndercounts(s, e, limits);
      var rest := OverAdmission(events + [e], limits, t, day);
      more := [e] + rest;
      assert events + more == events + [e] + rest;
    }
  }

  lemma StillUndercounts(s: State, e: Event, limits: Limits)
    requires e.Admit? && e.request !in s.admitted && Undercounts(s, e.tenant, e.day)
    requires |Where(s.admitted, Admission(e.tenant, e.day))| <= limits.tenant
    ensures var s' := Step(s, e, limits);
            && s'.admitted == s.admitted[e.request := Admission(e.tenant, e.day)]
            && Undercounts(s', e.tenant, e.day)
  {
    OneMore(s.admitted, e.request, Admission(e.tenant, e.day), Admission(e.tenant, e.day));
    var days := AdmissionsOf(s, e.tenant);
    assert forall i :: 0 <= i < |days| ==> days[i] in days;
  }

  // ----- The exact condition -----

  ghost predicate WithinLimit(s: State, t: Tenant, limit: nat) {
    forall d :: |Where(s.admitted, Admission(t, d))| <= limit
  }

  ghost predicate KeepsLimit(events: seq<Event>, limits: Limits, t: Tenant) {
    NonDecreasing(AdmissionsOf(After(events, limits), t)) ==> WithinLimit(After(events, limits), t, limits.tenant)
  }

  /** However a run is cut short and only admissions follow, with the clock in order, the limit is kept. */
  ghost predicate NeverOverAdmits(events: seq<Event>, limits: Limits, t: Tenant) {
    forall n, more :: 0 <= n <= |events| && AdmitsOnly(more, t) ==> KeepsLimit(events[..n] + more, limits, t)
  }

  lemma NothingStaleLast(events: seq<Event>, limits: Limits, t: Tenant)
    requires events != []
    ensures var n := |events| - 1;
            NothingStale(events, limits, t) <==>
            NothingStale(events[..n], limits, t) && !Stale(After(events[..n], limits), events[n], t)
  {
    var n := |events| - 1;
    forall k | 0 <= k < n ensures events[..n][..k] == events[..k] && events[..n][k] == events[k] {}
    if NothingStale(events[..n], limits, t) && !Stale(After(events[..n], limits), events[n], t) {
      forall k | 0 <= k < |events| ensures !Stale(After(events[..k], limits), events[k], t) {
        assert k < n ==> !Stale(After(events[..n][..k], limits), events[..n][k], t);
      }
    } else if NothingStale(events, limits, t) {
      NothingStaleBefore(events, limits, t, n);
    }
  }

  lemma {:induction false} FirstStale(events: seq<Event>, limits: Limits, t: Tenant) returns (n: nat)
    requires !NothingStale(events, limits, t)
    ensures n < |events| && NothingStale(events[..n], limits, t) && Stale(After(events[..n], limits), events[n], t)
  {
    var k := |events| - 1;
    NothingStaleLast(events, limits, t);
    if NothingStale(events[..k], limits, t) {
      n := k;
    } else {
      n := FirstStale(events[..k], limits, t);
      assert events[..k][..n] == events[..n];
    }
  }

  lemma AdmissionsAreNeverStale(events: seq<Event>, more: seq<Event>, limits: Limits, t: Tenant)
    requires NothingStale(events, limits, t) && AdmitsOnly(more, t)
    ensures NothingStale(events + more, limits, t)
  {
    var all := events + more;
    forall k | 0 <= k < |all| ensures !Stale(After(all[..k], limits), all[k], t) {
      if k < |events| { assert all[..k] == events[..k]; }
    }
  }

  /**
   With the tenant's clock in order, the ceiling holds at every point of a run and whatever is admitted
   from there on, if and only if no answer of the run is stale.
   */
  lemma CeilingExactlyWithoutStaleAnswers(events: seq<Event>, limits: Limits, t: Tenant)
    requires NonDecreasing(AdmissionsOf(After(events, limits), t))
    ensures NothingStale(events, limits, t) <==> NeverOverAdmits(events, limits, t)
  {
    if NothingStale(events, limits, t) {
      forall n, more | 0 <= n <= |events| && AdmitsOnly(more, t) ensures KeepsLimit(events[..n] + more, limits, t) {
        NothingStaleBefore(events, limits, t, n);
        AdmissionsAreNeverStale(events[..n], more, limits, t);
        NothingStaleKeepsLimit(events[..n] + more, limits, t);
      }
    } else {
      StaleAnswerBreaksTheCeiling(events, limits, t);
    }
  }

  lemma NothingStaleKeepsLimit(events: seq<Event>, limits: Limits, t: Tenant)
    requires NothingStale(events, limits, t)
    ensures KeepsLimit(events, limits, t)
  {
    var s := After(events, limits);
    if NonDecreasing(AdmissionsOf(s, t)) {
      forall d ensures |Where(s.admitted, Admission(t, d))| <= limits.tenant {
        NonDecreasingIsContiguous(AdmissionsOf(s, t), d);
        TenantCeiling(events, limits, t, d);
      }
    }
  }

  /** Where a stale answer has just left the quota short. */
  lemma FirstUndercount(events: seq<Event>, limits: Limits, t: Tenant) returns (n: nat, day: Day)
    requires NonDecreasing(AdmissionsOf(After(events, limits), t)) && !NothingStale(events, limits, t)
    ensures n <= |events| && Undercounts(After(events[..n], limits), t, day)
  {
    var k := FirstStale(events, limits, t);
    var before, e := events[..k], events[k];
    OrderedBefore(events, limits, t, k);
    CapturesHold(before, limits, t);
    CountsHold(before, limits, t);
    day := StaleAnswerUndercounts(After(before, limits), e, limits, t);
    n := k + 1;
    assert events[..n] == before + [e];
    AfterOneMore(before, e, limits);
  }

  lemma StaleAnswerBreaksTheCeiling(events: seq<Event>, limits: Limits, t: Tenant)
    requires NonDecreasing(AdmissionsOf(After(events, limits), t)) && !NothingStale(events, limits, t)
    ensures !NeverOverAdmits(events, limits, t)
  {
    var n, day := FirstUndercount(events, limits, t);
    var more := OverAdmission(events[..n], limits, t, day);
    assert !KeepsLimit(events[..n] + more, limits, t);
  }

  // ----- An agent that serves one request at a time -----

  predicate Idle(s: State, t: Tenant) {
    forall r :: r in s.open ==> s.open[r].tenant != t
  }

  /** The tenant's requests never overlap: none is admitted while another is open. */
  predicate OneAtATime(events: seq<Event>, limits: Limits, t: Tenant) {
    forall n :: 0 <= n < |events| && events[n].Admit? && events[n].tenant == t ==> Idle(After(events[..n], limits), t)
  }

  /** At most one request is open; it holds the current quota and was shown the current messages. */
  predicate TurnsAreCurrent(s: State, t: Tenant) {
    && AgentOf(s, t).messages == Window(TranscriptOf(s, t))
    && (forall r :: r in s.open && s.open[r].tenant == t ==> TurnIsCurrent(s, t, s.open[r]))
    && OneOpen(s, t)
  }

  predicate OneOpen(s: State, t: Tenant) {
    forall q, r :: q in s.open && r in s.open && s.open[q].tenant == t && s.open[r].tenant == t ==> q == r
  }

  lemma OneOpenKept(s: State, after: State, t: Tenant)
    requires OneOpen(s, t)
    requires forall r :: r in after.open ==> r in s.open && after.open[r].tenant == s.open[r].tenant
    ensures OneOpen(after, t)
  {
  }

  predicate TurnIsCurrent(s: State, t: Tenant, turn: Turn) {
    && AgentOf(s, t).quota == Some(turn.quota)
    && (turn.phase.Asking? ==> turn.phase.history == Window(TranscriptOf(s, t) + [User(turn.text)]))
  }

  lemma OwnAdmitIsCurrent(s: State, e: Event, limits: Limits)
    requires e.Admit? && Enabled(s, e) && TurnsAreCurrent(s, e.tenant) && Idle(s, e.tenant)
    ensures TurnsAreCurrent(Step(s, e, limits), e.tenant)
  {
  }

  lemma AdmitIsCurrent(s: State, e: Event, limits: Limits, t: Tenant)
    requires e.Admit? && Enabled(s, e) && TurnsAreCurrent(s, t)
    requires e.tenant == t ==> Idle(s, t)
    ensures TurnsAreCurrent(Step(s, e, limits), t)
  {
    if e.tenant == t {
      OwnAdmitIsCurrent(s, e, limits);
    } else {
      var s' := Step(s, e, limits);
      forall r | r in s'.open && s'.open[r].tenant == t ensures r in s.open && s'.open[r] == s.open[r] {}
    }
  }

  lemma AnswerIsCurrent(s: State, e: Event, limits: Limits, t: Tenant)
    requires e.Answer? && Enabled(s, e) && TurnsAreCurrent(s, t)
    ensures TurnsAreCurrent(Step(s, e, limits), t)
  {
    var s' := Step(s, e, limits);
    var turn := s.open[e.request];
    OneOpenKept(s, s', t);
    if turn.tenant == t {
      assert TurnIsCurrent(s, t, turn);
      TurnsShowTheTranscript(TranscriptOf(s, t), turn.text, e.reply);
    } else {
      SameTurns(s, s', t);
    }
  }

  /** A turn that was open before, perhaps now asking with the current history. */
  predicate SameTurn(s: State, t: Tenant, before: Turn, turn: Turn) {
    && before.tenant == t && turn.quota == before.quota && turn.text == before.text
    && (turn.phase.Asking? ==> turn == before || turn.phase.history == History(AgentOf(s, t), before.text))
  }

  /** Turns stay current while the agent and its transcript stay the same. */
  lemma SameTurns(s: State, after: State, t: Tenant)
    requires TurnsAreCurrent(s, t)
    requires AgentOf(after, t) == AgentOf(s, t) && TranscriptOf(after, t) == TranscriptOf(s, t)
    requires forall r :: r in after.open && after.open[r].tenant == t ==>
               r in s.open && SameTurn(s, t, s.open[r], after.open[r])
    ensures forall r :: r in after.open && after.open[r].tenant == t ==> TurnIsCurrent(after, t, after.open[r])
  {
    forall r | r in after.open && after.open[r].tenant == t ensures TurnIsCurrent(after, t, after.open[r]) {
      assert TurnIsCurrent(s, t, s.open[r]);
      TurnsShowTheTranscript(TranscriptOf(s, t), s.open[r].text, "");
    }
  }

  /** Reserving, asking and failing leave other turns alone. */
  lemma OtherTurnsStay(s: State, e: Event, limits: Limits, t: Tenant, r: Request)
    requires !e.Admit? && !e.Answer? && Enabled(s, e) && r in Step(s, e, limits).open
    ensures r in s.open && Step(s, e, limits).open[r].tenant == s.open[r].tenant
    ensures s.open[r].tenant == t ==> SameTurn(s, t, s.open[r], Step(s, e, limits).open[r])
  {
    if r != e.request { assert Step(s, e, limits).open[r] == s.open[r]; }
  }

  lemma OtherIsCurrent(s: State, e: Event, limits: Limits, t: Tenant)
    requires !e.Admit? && !e.Answer? && Enabled(s, e) && TurnsAreCurrent(s, t)
    ensures TurnsAreCurrent(Step(s, e, limits), t)
  {
    var s' := Step(s, e, limits);
    assert AgentOf(s', t) == AgentOf(s, t) && TranscriptOf(s', t) == TranscriptOf(s, t);
    forall r | r in s'.open
      ensures r in s.open && s'.open[r].tenant == s.open[r].tenant
      ensures s'.open[r].tenant == t ==> SameTurn(s, t, s.open[r], s'.open[r])
    {
      OtherTurnsStay(s, e, limits, t, r);
    }
    OneOpenKept(s, s', t);
    SameTurns(s, s', t);
  }

  lemma TurnsStayCurrent(s: State, e: Event, limits: Limits, t: Tenant)
    requires Enabled(s, e) && TurnsAreCurrent(s, t)
    requires e.Admit? && e.tenant == t ==> Idle(s, t)
    ensures TurnsAreCurrent(Step(s, e, limits), t)
  {
    if e.Admit? {
      AdmitIsCurrent(s, e, limits, t);
    } else if e.Answer? {
      AnswerIsCurrent(s, e, limits, t);
    } else {
      OtherIsCurrent(s, e, limits, t);
    }
  }

  lemma CurrentIsNotStale(s: State, e: Event, t: Tenant)
    requires TurnsAreCurrent(s, t)
    ensures !Stale(s, e, t)
  {
    if e.Answer? && Enabled(s, e) && s.open[e.request].tenant == t {
      assert TurnIsCurrent(s, t, s.open[e.request]);
    }
  }

  /**
   An agent that serves one request at a time always holds the last twenty messages of its successful
   turns, and never writes back an old quota.
   */
  lemma {:induction false} OneAtATimeIsCurrent(events: seq<Event>, limits: Limits, t: Tenant)
    requires OneAtATime(events, limits, t)
    ensures TurnsAreCurrent(After(events, limits), t) && NothingStale(events, limits, t)
    ensures AgentOf(After(events, limits), t).messages == Window(TranscriptOf(After(events, limits), t))
  {
    if events != [] {
      var n := |events| - 1;
      var s := After(events[..n], limits);
      forall k | 0 <= k < n && events[..n][k].Admit? && events[..n][k].tenant == t
        ensures Idle(After(events[..n][..k], limits), t)
      {
        assert events[..n][..k] == events[..k];
      }
      OneAtATimeIsCurrent(events[..n], limits, t);
      if Enabled(s, events[n]) { TurnsStayCurrent(s, events[n], limits, t); }
      CurrentIsNotStale(s, events[n], t);
      NothingStaleLast(events, limits, t);
    }
  }
}
