/**
 The paid-model protocol: tenant agents admit requests against their own daily quota, reserve from
 one global budget, ask the model and write back.  Every pause of a request is a step boundary, so
 requests of all tenants interleave freely.
 */
module BuilderProtocol {
  import opened Wrappers
  import opened Quota
  import opened BuilderAgent

  datatype Agent = Agent(messages: seq<Message>, quota: Option<Quota>)

  const NEW_AGENT: Agent := Agent([], None)

  function Admitted(agent: Agent, day: Day, limit: nat): Agent {
    agent.(quota := Kept(agent.quota, day, limit))
  }

  /** What the model is shown: the window over the stored messages and the new one. */
  function History(agent: Agent, text: string): seq<Message> {
    Window(agent.messages + [User(text)])
  }

  /** A successful turn overwrites the whole state, with the quota its request was admitted under. */
  function Answered(history: seq<Message>, reply: string, quota: Quota): Agent {
    Agent(Window(history + [Assistant(reply)]), Some(quota))
  }

  // ----- The system -----

  type Tenant = nat
  type Request = nat

  datatype Phase = Reserving | Reserved(stamp: Day) | Asking(history: seq<Message>)

  // An admitted request still being served, with the quota it captured on admission.
  datatype Turn = Turn(tenant: Tenant, text: string, quota: Quota, phase: Phase)

  datatype Admission = Admission(tenant: Tenant, day: Day)

  // `budget`, `agents` and `open` are the running system; the rest records its history.
  datatype State = State(
    budget: Option<Quota>,
    agents: map<Tenant, Agent>,
    open: map<Request, Turn>,
    stamps: seq<Day>,
    admissions: map<Tenant, seq<Day>>,
    admitted: map<Request, Admission>,
    grants: map<Request, Day>,
    calls: set<Request>,
    transcripts: map<Tenant, seq<Message>>)

  datatype Limits = Limits(tenant: nat, global: nat)

  datatype Event =
    | Admit(request: Request, tenant: Tenant, text: string, day: Day)
    | Reserve(request: Request, stamp: Day)
    | Ask(request: Request)
    | Answer(request: Request, reply: string)
    | Fail(request: Request)

  const START: State := State(None, map[], map[], [], map[], map[], map[], {}, map[])

  function AgentOf(s: State, t: Tenant): Agent {
    if t in s.agents then s.agents[t] else NEW_AGENT
  }

  function AdmissionsOf(s: State, t: Tenant): seq<Day> {
    if t in s.admissions then s.admissions[t] else []
  }

  function TranscriptOf(s: State, t: Tenant): seq<Message> {
    if t in s.transcripts then s.transcripts[t] else []
  }

  predicate Enabled(s: State, e: Event) {
    match e
    case Admit(r, _, _, _) => r !in s.admitted
    case Reserve(r, _) => r in s.open && s.open[r].phase.Reserving?
    case Ask(r) => r in s.open && s.open[r].phase.Reserved?
    case Answer(r, _) => r in s.open && s.open[r].phase.Asking?
    case Fail(r) => r in s.open
  }

  function Step(s: State, e: Event, limits: Limits): State
    requires Enabled(s, e)
  {
    match e
    case Admit(r, t, text, day) =>
      var ticket := NextQuota(AgentOf(s, t).quota, day, limits.tenant);
      var noted := s.(admissions := s.admissions[t := AdmissionsOf(s, t) + [day]]);
      if !ticket.allowed then noted
      else noted.(agents := s.agents[t := Admitted(AgentOf(s, t), day, limits.tenant)],
                  open := s.open[r := Turn(t, text, ticket.quota, Reserving)],
                  admitted := s.admitted[r := Admission(t, day)])
    case Reserve(r, stamp) =>
      var ticket := NextQuota(s.budget, stamp, limits.global);
      var noted := s.(stamps := s.stamps + [stamp], budget := Kept(s.budget, stamp, limits.global));
      if ticket.allowed
      then noted.(open := s.open[r := s.open[r].(phase := Reserved(stamp))], grants := s.grants[r := stamp])
      else noted.(open := s.open - {r})
    case Ask(r) =>
      var turn := s.open[r];
      s.(open := s.open[r := turn.(phase := Asking(History(AgentOf(s, turn.tenant), turn.text)))],
         calls := s.calls + {r})
    case Answer(r, reply) =>
      var turn := s.open[r];
      s.(agents := s.agents[turn.tenant := Answered(turn.phase.history, reply, turn.quota)],
         open := s.open - {r},
         transcripts := s.transcripts[turn.tenant :=
           TranscriptOf(s, turn.tenant) + [User(turn.text), Assistant(reply)]])
    case Fail(r) => s.(open := s.open - {r})
  }

  /** The state after a run; events that are not enabled do not happen. */
  function After(events: seq<Event>, limits: Limits): State {
    if events == [] then START
    else
      var before, e := After(events[..|events| - 1], limits), events[|events| - 1];
      if Enabled(before, e) then Step(before, e, limits) else before
  }

  lemma AfterOneMore(events: seq<Event>, e: Event, limits: Limits)
    ensures After(events + [e], limits) ==
            if Enabled(After(events, limits), e) then Step(After(events, limits), e, limits) else After(events, limits)
  {
    assert (events + [e])[..|events|] == events;
  }

  // ----- Counting -----

  /** The requests a record maps to a value. */
  function Where<T(==)>(record: map<Request, T>, value: T): set<Request> {
    set r | r in record && record[r] == value
  }

  /** The paid calls charged to a day of the global budget. */
  function CallsStamped(s: State, day: Day): set<Request> {
    set r | r in s.calls && r in s.grants && s.grants[r] == day
  }

  /** The paid calls charged to a tenant's day. */
  function TenantCalls(s: State, t: Tenant, day: Day): set<Request> {
    set r | r in s.calls && r in s.admitted && s.admitted[r] == Admission(t, day)
  }

  lemma SubsetCount(a: set<Request>, b: set<Request>)
    requires a <= b
    ensures |a| <= |b|
  {
    assert b == a + (b - a);
  }

  // ----- The global ceiling -----

  ghost predicate GlobalInvariant(s: State, limit: nat) {
    BudgetCounts(s, limit) && CallsAreReserved(s)
  }

  /** The budget is what its stamps make it, and each day has as many grants as they allow. */
  ghost predicate BudgetCounts(s: State, limit: nat) {
    && s.budget == Book(s.stamps, limit)
    && (forall d :: |Where(s.grants, d)| == Grants(s.stamps, limit, d))
  }

  ghost predicate CallsAreReserved(s: State) {
    forall r: Request :: RequestIsReserved(s, r)
  }

  /** A request is granted once it leaves the reserving phase, and called only when granted. */
  predicate RequestIsReserved(s: State, r: Request) {
    && (r in s.open ==> r in s.admitted && (s.open[r].phase.Reserving? <==> r !in s.grants))
    && (r in s.grants ==> r in s.admitted)
    && (r in s.calls ==> r in s.grants)
  }

  lemma CallsStayReserved(s: State, e: Event, limits: Limits)
    requires Enabled(s, e) && CallsAreReserved(s)
    ensures CallsAreReserved(Step(s, e, limits))
  {
    var s' := Step(s, e, limits);
    forall r: Request ensures RequestIsReserved(s', r) {
      assert RequestIsReserved(s, r);
    }
  }

  lemma OneMore<T>(record: map<Request, T>, r: Request, new_: T, value: T)
    requires r !in record
    ensures |Where(record[r := new_], value)| == |Where(record, value)| + if new_ == value then 1 else 0
  {
    if new_ == value {
      assert Where(record[r := new_], value) == Where(record, value) + {r};
    } else {
      assert Where(record[r := new_], value) == Where(record, value);
    }
  }

  /** A reservation keeps the grants of every day in step with the stamps. */
  lemma ReserveCounts(stamps: seq<Day>, grants: map<Request, Day>, r: Request, stamp: Day, limit: nat, day: Day)
    requires r !in grants && |Where(grants, day)| == Grants(stamps, limit, day)
    ensures Kept(Book(stamps, limit), stamp, limit) == Book(stamps + [stamp], limit)
    ensures var after := if Granted(stamps, stamp, limit) then grants[r := stamp] else grants;
            |Where(after, day)| == Grants(stamps + [stamp], limit, day)
  {
    BookExtends(stamps, stamp, limit, day);
    OneMore(grants, r, stamp, day);
  }

  lemma BudgetStillCounts(s: State, e: Event, limits: Limits)
    requires Enabled(s, e) && GlobalInvariant(s, limits.global)
    ensures BudgetCounts(Step(s, e, limits), limits.global)
  {
    if e.Reserve? {
      var s' := Step(s, e, limits);
      assert RequestIsReserved(s, e.request);
      ReserveCounts(s.stamps, s.grants, e.request, e.stamp, limits.global, e.stamp);
      forall d ensures |Where(s'.grants, d)| == Grants(s'.stamps, limits.global, d) {
        ReserveCounts(s.stamps, s.grants, e.request, e.stamp, limits.global, d);
      }
    }
  }

  lemma GlobalInvariantKept(s: State, e: Event, limits: Limits)
    requires Enabled(s, e) && GlobalInvariant(s, limits.global)
    ensures GlobalInvariant(Step(s, e, limits), limits.global)
  {
    CallsStayReserved(s, e, limits);
    BudgetStillCounts(s, e, limits);
  }

  lemma {:induction false} GlobalInvariantHolds(events: seq<Event>, limits: Limits)
    ensures GlobalInvariant(After(events, limits), limits.global)
  {
    if events == [] {
      forall d ensures |Where(START.grants, d)| == 0 { assert Where(START.grants, d) == {}; }
    } else {
      var n := |events| - 1;
      GlobalInvariantHolds(events[..n], limits);
      if Enabled(After(events[..n], limits), events[n]) {
        GlobalInvariantKept(After(events[..n], limits), events[n], limits);
      }
    }
  }

  /**
   In every interleaving of every number of tenants, the paid calls of a day never exceed the global
   limit if the day's stamps reach the budget as one block, or are no more than the limit.
   */
  lemma GlobalCeiling(events: seq<Event>, limits: Limits, day: Day)
    requires StampsKeep(After(events, limits).stamps, limits.global, day)
    ensures |CallsStamped(After(events, limits), day)| <= limits.global
  {
    var s := After(events, limits);
    GlobalInvariantHolds(events, limits);
    CeilingExactly(s.stamps, limits.global, day);
    SubsetCount(CallsStamped(s, day), Where(s.grants, day));
  }

  /** Every paid call has its own allowed reservation. */
  lemma EveryCallIsReserved(events: seq<Event>, limits: Limits)
    ensures After(events, limits).calls <= After(events, limits).grants.Keys
  {
    GlobalInvariantHolds(events, limits);
    var s := After(events, limits);
    forall r | r in s.calls ensures r in s.grants { assert RequestIsReserved(s, r); }
  }

  // ----- A request served without interruption -----

  /** The steps of one request, which the model answers or fails. */
  function Whole(r: Request, t: Tenant, text: string, day: Day, stamp: Day, answer: Option<string>): seq<Event> {
    [Admit(r, t, text, day), Reserve(r, stamp), Ask(r)]
    + [if answer.Some? then Answer(r, answer.value) else Fail(r)]
  }

  function Do(s: State, e: Event, limits: Limits): State {
    if Enabled(s, e) then Step(s, e, limits) else s
  }

  function DoAll(s: State, events: seq<Event>, limits: Limits): State {
    if events == [] then s else Do(DoAll(s, events[..|events| - 1], limits), events[|events| - 1], limits)
  }

  lemma {:induction false} AfterAll(events: seq<Event>, more: seq<Event>, limits: Limits)
    ensures After(events + more, limits) == DoAll(After(events, limits), more, limits)
  {
    if more == [] {
      assert events + more == events;
    } else {
      var n := |more| - 1;
      AfterAll(events, more[..n], limits);
      AfterOneMore(events + more[..n], more[n], limits);
      assert events + more == events + more[..n] + [more[n]];
    }
  }

  lemma FourSteps(s: State, a: Event, b: Event, c: Event, d: Event, limits: Limits)
    ensures DoAll(s, [a, b, c, d], limits) == Do(Do(Do(Do(s, a, limits), b, limits), c, limits), d, limits)
  {
    assert [a, b, c, d][..3] == [a, b, c] && [a, b, c][..2] == [a, b] && [a, b][..1] == [a] && [a][..0] == [];
    assert DoAll(s, [a], limits) == Do(s, a, limits);
    assert DoAll(s, [a, b], limits) == Do(DoAll(s, [a], limits), b, limits);
    assert DoAll(s, [a, b, c], limits) == Do(DoAll(s, [a, b], limits), c, limits);
  }

  ghost predicate RefusedByTenant(s: State, after: State, t: Tenant) {
    && AgentOf(after, t) == AgentOf(s, t) && after.budget == s.budget && after.stamps == s.stamps
    && after.calls == s.calls && after.transcripts == s.transcripts
  }

  ghost predicate RefusedByBudget(s: State, after: State, t: Tenant) {
    && AgentOf(after, t).messages == AgentOf(s, t).messages && after.budget == s.budget
    && after.calls == s.calls && after.transcripts == s.transcripts
  }

  /** The tenant's request is charged, whether the budget refuses it or not. */
  ghost predicate Charged(s: State, after: State, t: Tenant, day: Day, stamp: Day, limits: Limits) {
    && AgentOf(after, t).quota == Some(NextQuota(AgentOf(s, t).quota, day, limits.tenant).quota)
    && after.stamps == s.stamps + [stamp]
  }

  /** What the call of a request changes: nothing without an answer, a turn of the transcript with one. */
  ghost predicate Called(s: State, after: State, r: Request, t: Tenant, text: string, answer: Option<string>) {
    && after.calls == s.calls + {r}
    && (answer.None? ==> AgentOf(after, t).messages == AgentOf(s, t).messages && after.transcripts == s.transcripts)
    && (answer.Some? ==>
          && AgentOf(after, t).messages
             == Window(Window(AgentOf(s, t).messages + [User(text)]) + [Assistant(answer.value)])
          && TranscriptOf(after, t) == TranscriptOf(s, t) + [User(text), Assistant(answer.value)])
  }

  /**
   A request served without interruption, from any point of any run: it is refused by the tenant's limit
   and changes nothing; or is charged and refused by the budget; or is charged twice and called, once,
   and an answer joins the transcript while a failure changes nothing more.  It is over either way.
   */
  lemma WholeRequests(events: seq<Event>, limits: Limits, r: Request, t: Tenant, text: string, day: Day, stamp: Day,
                      answer: Option<string>)
    requires r !in After(events, limits).admitted
    ensures var s, after := After(events, limits), After(events + Whole(r, t, text, day, stamp, answer), limits);
            WholeEffect(s, after, limits, r, t, text, day, stamp, answer)
  {
    var s := After(events, limits);
    GlobalInvariantHolds(events, limits);
    assert RequestIsReserved(s, r);
    AfterAll(events, Whole(r, t, text, day, stamp, answer), limits);
    WholeSteps(s, limits, r, t, text, day, stamp, answer);
  }

  ghost predicate WholeEffect(s: State, after: State, limits: Limits, r: Request, t: Tenant, text: string, day: Day,
                              stamp: Day, answer: Option<string>)
  {
    && after.open == s.open
    && (forall other :: other != t ==> AgentOf(after, other) == AgentOf(s, other))
    && AdmissionsOf(after, t) == AdmissionsOf(s, t) + [day]
    && (if !NextQuota(AgentOf(s, t).quota, day, limits.tenant).allowed then RefusedByTenant(s, after, t)
        else
          && Charged(s, after, t, day, stamp, limits)
          && (if !NextQuota(s.budget, stamp, limits.global).allowed then RefusedByBudget(s, after, t)
              else Called(s, after, r, t, text, answer)
                   && after.budget == Some(NextQuota(s.budget, stamp, limits.global).quota)))
  }

  lemma WholeSteps(s: State, limits: Limits, r: Request, t: Tenant, text: string, day: Day, stamp: Day,
                   answer: Option<string>)
    requires r !in s.admitted && r !in s.open
    ensures var after := DoAll(s, Whole(r, t, text, day, stamp, answer), limits);
            WholeEffect(s, after, limits, r, t, text, day, stamp, answer)
  {
    var a, b, c := Admit(r, t, text, day), Reserve(r, stamp), Ask(r);
    var d := if answer.Some? then Answer(r, answer.value) else Fail(r);
    assert Whole(r, t, text, day, stamp, answer) == [a, b, c, d];
    FourSteps(s, a, b, c, d, limits);
    if !NextQuota(AgentOf(s, t).quota, day, limits.tenant).allowed {
      RefusedSteps(s, a, b, c, d, limits);
    } else {
      AdmittedSteps(s, limits, r, t, text, day, stamp, answer);
    }
  }

  /** A request the tenant's limit refuses never opens, so its other steps do not happen. */
  lemma RefusedSteps(s: State, a: Event, b: Event, c: Event, d: Event, limits: Limits)
    requires a.Admit? && b.Reserve? && c.Ask? && (d.Answer? || d.Fail?)
    requires a.request == b.request == c.request == d.request
    requires a.request !in s.admitted && a.request !in s.open
    requires !NextQuota(AgentOf(s, a.tenant).quota, a.day, limits.tenant).allowed
    ensures var after := Do(Do(Do(Do(s, a, limits), b, limits), c, limits), d, limits);
            after == s.(admissions := s.admissions[a.tenant := AdmissionsOf(s, a.tenant) + [a.day]])
  {
    var after := Do(s, a, limits);
    assert !Enabled(after, b) && !Enabled(after, c) && !Enabled(after, d);
  }

  /** The reservation of an open request, refused or granted. */
  lemma ReserveStep(s: State, r: Request, stamp: Day, limits: Limits)
    requires r in s.open && s.open[r].phase.Reserving?
    ensures var ticket, after := NextQuota(s.budget, stamp, limits.global), Do(s, Reserve(r, stamp), limits);
            if ticket.allowed
            then after == s.(stamps := s.stamps + [stamp], budget := Some(ticket.quota), grants := s.grants[r := stamp],
                             open := s.open[r := s.open[r].(phase := Reserved(stamp))])
            else after == s.(stamps := s.stamps + [stamp], open := s.open - {r})
  {
  }

  /** The call of a granted request, and its end. */
  lemma CallSteps(s: State, r: Request, answer: Option<string>, limits: Limits)
    requires r in s.open && s.open[r].phase.Reserved?
    ensures var turn, d := s.open[r], if answer.Some? then Answer(r, answer.value) else Fail(r);
            var t, after := turn.tenant, Do(Do(s, Ask(r), limits), d, limits);
            var asked := s.(calls := s.calls + {r}, open := s.open - {r});
            if answer.None? then after == asked
            else after == asked.(
              agents := s.agents[t := Answered(History(AgentOf(s, t), turn.text), answer.value, turn.quota)],
              transcripts := s.transcripts[t := TranscriptOf(s, t) + [User(turn.text), Assistant(answer.value)]])
  {
    var turn := s.open[r];
    var history := History(AgentOf(s, turn.tenant), turn.text);
    var asking := Do(s, Ask(r), limits);
    assert asking == s.(calls := s.calls + {r}, open := s.open[r := turn.(phase := Asking(history))]);
    assert asking.open - {r} == s.open - {r};
  }

  /** The state right after an admission the tenant's limit allows. */
  function Opened(s: State, limits: Limits, r: Request, t: Tenant, text: string, day: Day): State {
    var quota := NextQuota(AgentOf(s, t).quota, day, limits.tenant).quota;
    s.(admissions := s.admissions[t := AdmissionsOf(s, t) + [day]],
       agents := s.agents[t := Agent(AgentOf(s, t).messages, Some(quota))],
       open := s.open[r := Turn(t, text, quota, Reserving)],
       admitted := s.admitted[r := Admission(t, day)])
  }

  lemma AdmitStep(s: State, limits: Limits, r: Request, t: Tenant, text: string, day: Day)
    requires r !in s.admitted && NextQuota(AgentOf(s, t).quota, day, limits.tenant).allowed
    ensures Do(s, Admit(r, t, text, day), limits) == Opened(s, limits, r, t, text, day)
  {
  }

  lemma RefusedEffect(s: State, limits: Limits, r: Request, t: Tenant, text: string, day: Day, stamp: Day,
                      answer: Option<string>)
    requires r !in s.open && NextQuota(AgentOf(s, t).quota, day, limits.tenant).allowed
    requires !NextQuota(s.budget, stamp, limits.global).allowed
    ensures var s1 := Opened(s, limits, r, t, text, day);
            var after := s1.(stamps := s.stamps + [stamp], open := s1.open - {r});
            WholeEffect(s, after, limits, r, t, text, day, stamp, answer)
  {
    assert Opened(s, limits, r, t, text, day).open - {r} == s.open;
  }

  lemma CalledEffect(s: State, limits: Limits, r: Request, t: Tenant, text: string, day: Day, stamp: Day,
                     answer: Option<string>, s2: State, after: State)
    requires r !in s.open && NextQuota(AgentOf(s, t).quota, day, limits.tenant).allowed
    requires var ticket, s1 := NextQuota(s.budget, stamp, limits.global), Opened(s, limits, r, t, text, day);
             && ticket.allowed
             && s2 == s1.(stamps := s.stamps + [stamp], budget := Some(ticket.quota), grants := s.grants[r := stamp],
                          open := s1.open[r := s1.open[r].(phase := Reserved(stamp))])
    requires var turn := s2.open[r];
             var asked := s2.(calls := s2.calls + {r}, open := s2.open - {r});
             if answer.None? then after == asked
             else after == asked.(
               agents := s2.agents[t := Answered(History(AgentOf(s2, t), text), answer.value, turn.quota)],
               transcripts := s2.transcripts[t := TranscriptOf(s2, t) + [User(text), Assistant(answer.value)]])
    ensures WholeEffect(s, after, limits, r, t, text, day, stamp, answer)
  {
    assert s2.open - {r} == s.open;
    assert AgentOf(s2, t).messages == AgentOf(s, t).messages;
  }

  lemma AdmittedSteps(s: State, limits: Limits, r: Request, t: Tenant, text: string, day: Day, stamp: Day,
                      answer: Option<string>)
    requires r !in s.admitted && r !in s.open && NextQuota(AgentOf(s, t).quota, day, limits.tenant).allowed
    ensures var d := if answer.Some? then Answer(r, answer.value) else Fail(r);
            var s1 := Do(s, Admit(r, t, text, day), limits);
            var after := Do(Do(Do(s1, Reserve(r, stamp), limits), Ask(r), limits), d, limits);
            WholeEffect(s, after, limits, r, t, text, day, stamp, answer)
  {
    var d := if answer.Some? then Answer(r, answer.value) else Fail(r);
    AdmitStep(s, limits, r, t, text, day);
    var s1 := Opened(s, limits, r, t, text, day);
    ReserveStep(s1, r, stamp, limits);
    var s2 := Do(s1, Reserve(r, stamp), limits);
    if NextQuota(s.budget, stamp, limits.global).allowed {
      CallSteps(s2, r, answer, limits);
      CalledEffect(s, limits, r, t, text, day, stamp, answer, s2, Do(Do(s2, Ask(r), limits), d, limits));
    } else {
      assert !Enabled(s2, Ask(r)) && !Enabled(s2, d);
      RefusedEffect(s, limits, r, t, text, day, stamp, answer);
    }
  }
}
