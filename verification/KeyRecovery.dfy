/**
 Recovering from an expired sandbox key: any number of concurrent calls and key requests, one
 stored key, and a sign-up task behind a single flight.  Every pause is a step boundary.  How many
 sign-ups a run can cost is settled exactly.
 */
module KeyRecovery {
  import opened Wrappers
  import opened SingleFlight

  type Key = string
  type Caller = nat

  /** JavaScript's truth of a key: there is one, and it is not the empty string. */
  predicate Truthy(key: Option<Key>) { key.Some? && key.value != "" }

  // The task's result: a key, or none when the reply carried none.
  type KeyCache = Cache<Option<Key>>

  const UNAUTHORISED: nat := 401

  // What became of a call: an HTTP status, a key request's answer, or an exception.
  datatype Result = Status(code: nat) | Answered(key: Option<Key>) | Thrown

  datatype Phase =
    | Requesting(useKey: bool, sentWith: Option<Key>)
    | Recovering(flight: FlightId)
    | Retrying(sentWith: Option<Key>)
    | Ensuring(flight: FlightId)
    | Done(result: Result)

  // `sent` counts each caller's HTTP requests and `signups` lists the flights that signed up, in
  // order.  `rejected` holds the keys calls were answered 401 for, `cleared` counts how often others
  // removed a stored key, and `failed` the sign-ups that gave none.
  datatype State = State(
    key: Option<Key>,
    cache: KeyCache,
    callers: map<Caller, Phase>,
    sent: map<Caller, nat>,
    signups: seq<FlightId>,
    rejected: set<Key>,
    cleared: nat,
    failed: nat)

  const START: State := State(None, EmptyCache(), map[], map[], [], {}, 0, 0)

  datatype Event =
    | Send(caller: Caller, useKey: bool)
    | Reply(caller: Caller, status: nat)
    | Ensure(caller: Caller)
    | TaskStarts(flight: FlightId)
    | SignupReplies(flight: FlightId, body: Option<Key>)
    | SignupThrows(flight: FlightId)
    | FinallyRuns(flight: FlightId)
    | Resume(caller: Caller)
    | Store(stored: Option<Key>)

  predicate Waits(s: State, c: Caller) {
    c in s.callers && (s.callers[c].Recovering? || s.callers[c].Ensuring?)
  }

  predicate SigningUp(s: State, f: FlightId) { At(s.cache, f, Running) }

  predicate Enabled(s: State, e: Event) {
    match e
    case Send(c, _) => c !in s.callers
    case Reply(c, _) => c in s.callers && (s.callers[c].Requesting? || s.callers[c].Retrying?)
    case Ensure(c) => c !in s.callers
    case TaskStarts(f) => At(s.cache, f, Scheduled)
    case SignupReplies(f, _) => SigningUp(s, f)
    case SignupThrows(f) => SigningUp(s, f)
    case FinallyRuns(f) => f < |s.cache.flights| && s.cache.flights[f].Settled?
    case Resume(c) => Waits(s, c) && s.callers[c].flight < |s.cache.flights|
                      && s.cache.flights[s.callers[c].flight].Finished?
    case Store(_) => true
  }

  function Sent(s: State, c: Caller): nat { if c in s.sent then s.sent[c] else 0 }

  /** The key a request carries if it is to carry one. */
  function SendableKey(s: State): Option<Key> { if Truthy(s.key) then s.key else None }

  /** A caller sends a request and moves to the phase that awaits its reply. */
  function Sends(s: State, c: Caller, phase: Phase): State {
    s.(callers := s.callers[c := phase], sent := s.sent[c := Sent(s, c) + 1])
  }

  function Step(s: State, e: Event): State
    requires Enabled(s, e)
  {
    match e
    case Send(c, useKey) => Sends(s, c, Requesting(useKey, if useKey then SendableKey(s) else None))
    case Reply(c, status) =>
      if Unauthorised(s, e) then TurnedAway(s, c)
      else s.(callers := s.callers[c := Done(Status(status))])
    case Ensure(c) =>
      if s.key.Some? then s.(callers := s.callers[c := Done(Answered(s.key))])
      else
        var (cache, f) := Join(s.cache);
        s.(cache := cache, callers := s.callers[c := Ensuring(f)])
    case TaskStarts(f) =>
      var running := TaskStart(s.cache, f);
      if Truthy(s.key) then s.(cache := TaskSettle(running, f, Resolved(s.key)))
      else s.(cache := running, signups := s.signups + [f])
    case SignupReplies(f, body) =>
      var settled := s.(cache := TaskSettle(s.cache, f, Resolved(body)));
      if Truthy(body) then settled.(key := body) else settled.(failed := s.failed + 1)
    case SignupThrows(f) => s.(cache := TaskSettle(s.cache, f, Rejected), failed := s.failed + 1)
    case FinallyRuns(f) => s.(cache := Clear(s.cache, f))
    case Resume(c) =>
      var phase := s.callers[c];
      var next := Delivered(phase, s.cache.flights[phase.flight].outcome, SendableKey(s));
      if next.Retrying? then Sends(s, c, next) else s.(callers := s.callers[c := next])
    case Store(stored) =>
      s.(key := stored, cleared := if Truthy(s.key) && !Truthy(stored) then s.cleared + 1 else s.cleared)
  }

  /** A call's own request, sent with the key if there was one, is answered 401. */
  predicate Unauthorised(s: State, e: Event) {
    && e.Reply? && e.status == UNAUTHORISED && Enabled(s, e)
    && s.callers[e.caller].Requesting? && s.callers[e.caller].useKey
  }

  /** Whatever key is stored by then is discarded, and the caller joins the flight; else the 401 stands. */
  function TurnedAway(s: State, c: Caller): State
    requires c in s.callers && s.callers[c].Requesting?
  {
    var noted := s.(rejected := s.rejected + KeysOf(s.callers[c].sentWith));
    if Truthy(s.key) then
      var (cache, f) := Join(s.cache);
      noted.(key := None, cache := cache, callers := s.callers[c := Recovering(f)])
    else noted.(callers := s.callers[c := Done(Status(UNAUTHORISED))])
  }

  function KeysOf(key: Option<Key>): set<Key> {
    if key.Some? then {key.value} else {}
  }

  /** What a caller of a flight becomes when the flight ends this way. */
  function Delivered(waiting: Phase, outcome: Outcome<Option<Key>>, sendable: Option<Key>): Phase
    requires waiting.Recovering? || waiting.Ensuring?
  {
    match outcome
    case Rejected => Done(Thrown)
    case Resolved(key) =>
      if waiting.Ensuring? then Done(Answered(key))
      else if Truthy(key) then Retrying(sendable)
      else Done(Status(UNAUTHORISED))
  }

  /** The state after a run; events that are not enabled do not happen. */
  function After(events: seq<Event>): State {
    if events == [] then START
    else
      var before, e := After(events[..|events| - 1]), events[|events| - 1];
      if Enabled(before, e) then Step(before, e) else before
  }

  // ----- What every step keeps -----

  ghost predicate Invariant(s: State) {
    && Consistent(s.cache)
    && (forall c: Caller :: CallerIsSound(s, c))
    && SignupsAreSound(s)
  }

  /** A waiting caller's flight exists, and no caller has sent more than its phase allows. */
  predicate CallerIsSound(s: State, c: Caller) {
    && (Waits(s, c) ==> s.callers[c].flight < |s.cache.flights|)
    && (c !in s.callers ==> Sent(s, c) == 0)
    && (c in s.callers ==>
          match s.callers[c]
          case Requesting(_, _) => Sent(s, c) == 1
          case Recovering(_) => Sent(s, c) == 1
          case Retrying(_) => Sent(s, c) == 2
          case Ensuring(_) => Sent(s, c) == 0
          case Done(_) => Sent(s, c) <= 2)
  }

  /** Flights sign up in order, each at most once, and only started ones. */
  predicate SignupsAreSound(s: State) {
    && (forall i, j :: 0 <= i < j < |s.signups| ==> s.signups[i] < s.signups[j])
    && (forall i :: 0 <= i < |s.signups| ==>
          s.signups[i] < |s.cache.flights| && !s.cache.flights[s.signups[i]].Scheduled?)
  }

  lemma CacheStaysConsistent(s: State, e: Event)
    requires Enabled(s, e) && Consistent(s.cache)
    ensures Consistent(Step(s, e).cache)
  {
    match e {
      case Reply(_, _) => JoinConsistent(s.cache);
      case Ensure(_) => JoinConsistent(s.cache);
      case TaskStarts(f) =>
        StageConsistent(s.cache, f, Running);
        if Truthy(s.key) { StageConsistent(TaskStart(s.cache, f), f, Settled(Resolved(s.key))); }
      case SignupReplies(f, body) => StageConsistent(s.cache, f, Settled(Resolved(body)));
      case SignupThrows(f) => StageConsistent(s.cache, f, Settled(Rejected));
      case FinallyRuns(f) => ClearConsistent(s.cache, f);
      case _ =>
    }
  }

  lemma CallersStaySound(s: State, e: Event)
    requires Enabled(s, e) && Invariant(s)
    ensures forall c: Caller :: CallerIsSound(Step(s, e), c)
  {
    JoinConsistent(s.cache);
    forall c: Caller ensures CallerIsSound(Step(s, e), c) {
      CallerStaysSound(s, e, c);
    }
  }

  lemma CallerStaysSound(s: State, e: Event, c: Caller)
    requires Enabled(s, e) && CallerIsSound(s, c) && |s.cache.flights| <= |Step(s, e).cache.flights|
    requires var (after, f) := Join(s.cache); f < |after.flights|
    ensures CallerIsSound(Step(s, e), c)
  {
  }

  /** A scheduled flight is the newest, so its sign-up comes last. */
  lemma ScheduledIsNewest(s: State, f: FlightId)
    requires Invariant(s) && At(s.cache, f, Scheduled) && NewestIsPending(s)
    ensures forall i :: 0 <= i < |s.signups| ==> s.signups[i] < f
  {
    assert OnlyPendingIsOpen(s.cache, f);
  }

  /** Only the flight started last can be pending. */
  predicate NewestIsPending(s: State) {
    s.cache.pending.Some? ==> s.cache.pending.value == |s.cache.flights| - 1
  }

  lemma SignupsStaySound(s: State, e: Event)
    requires Enabled(s, e) && Invariant(s) && NewestIsPending(s)
    ensures SignupsAreSound(Step(s, e)) && NewestIsPending(Step(s, e))
  {
    if e.TaskStarts? {
      ScheduledIsNewest(s, e.flight);
    }
  }

  lemma {:induction false} InvariantHolds(events: seq<Event>)
    ensures Invariant(After(events)) && NewestIsPending(After(events))
  {
    if events == [] {
      forall f: nat ensures OnlyPendingIsOpen(START.cache, f) {}
      forall c: Caller ensures CallerIsSound(START, c) {}
    } else {
      var n := |events| - 1;
      InvariantHolds(events[..n]);
      var s := After(events[..n]);
      if Enabled(s, events[n]) {
        CacheStaysConsistent(s, events[n]);
        CallersStaySound(s, events[n]);
        SignupsStaySound(s, events[n]);
      }
    }
  }

  // ----- The theorems -----

  /** However many calls meet a 401, at most one sign-up is in flight. */
  lemma OneSignupInFlight(events: seq<Event>, f: FlightId, g: FlightId)
    requires SigningUp(After(events), f) && SigningUp(After(events), g)
    ensures f == g && After(events).cache.pending == Some(f)
  {
    InvariantHolds(events);
    OpenFlightsAreOne(After(events).cache, f, g);
  }

  /** Callers waiting on flights that are not over all wait on the pending one. */
  lemma WaitersShareTheFlight(events: seq<Event>, c: Caller)
    requires Waits(After(events), c)
    ensures var s := After(events);
            var f := s.callers[c].flight;
            Enabled(s, Resume(c)) || s.cache.pending == Some(f)
  {
    InvariantHolds(events);
    var s := After(events);
    assert CallerIsSound(s, c);
    assert OnlyPendingIsOpen(s.cache, s.callers[c].flight);
  }

  /** The pending flight can always take its next step, so no waiter is stranded. */
  lemma {:induction false} PendingFlightCanMove(events: seq<Event>)
    requires After(events).cache.pending.Some?
    ensures var s := After(events);
            var f := s.cache.pending.value;
            Enabled(s, TaskStarts(f)) || Enabled(s, SignupReplies(f, None)) || Enabled(s, FinallyRuns(f))
  {
    InvariantHolds(events);
    assert OnlyPendingIsOpen(After(events).cache, After(events).cache.pending.value);
  }

  predicate HasOutcome(s: State, f: FlightId, outcome: Outcome<Option<Key>>) {
    At(s.cache, f, Settled(outcome)) || At(s.cache, f, Finished(outcome))
  }

  lemma OutcomeLasts(s: State, e: Event, f: FlightId, outcome: Outcome<Option<Key>>)
    requires Enabled(s, e) && HasOutcome(s, f, outcome)
    ensures HasOutcome(Step(s, e), f, outcome)
    ensures At(s.cache, f, Finished(outcome)) ==> At(Step(s, e).cache, f, Finished(outcome))
  {
  }

  lemma {:induction false} OutcomesLast(events: seq<Event>, later: seq<Event>, f: FlightId,
                                        outcome: Outcome<Option<Key>>)
    requires HasOutcome(After(events), f, outcome)
    ensures HasOutcome(After(events + later), f, outcome)
  {
    if later == [] {
      assert events + later == events;
    } else {
      var n := |later| - 1;
      var before := events + later[..n];
      OutcomesLast(events, later[..n], f, outcome);
      assert events + later == before + [later[n]];
      AfterOneMore(before, later[n]);
      if Enabled(After(before), later[n]) { OutcomeLasts(After(before), later[n], f, outcome); }
    }
  }

  /**
   The outcome a task settles with reaches every caller of its flight, whenever it resumes.  A rejected
   flight throws.  A key request answers the key itself, or none.  A call sends its request again with
   the key stored by then, if the flight gave a key; otherwise its 401 stands.
   */
  lemma EveryWaiterGetsTheTasksOutcome(events: seq<Event>, later: seq<Event>, c: Caller, outcome: Outcome<Option<Key>>)
    requires var s := After(events + later);
             && Enabled(s, Resume(c))
             && HasOutcome(After(events), s.callers[c].flight, outcome)
    ensures var s, after := After(events + later), After(events + later + [Resume(c)]);
            var recovering := s.callers[c].Recovering?;
            && c in after.callers
            && (outcome.Rejected? ==> after.callers[c] == Done(Thrown) && Sent(after, c) == Sent(s, c))
            && (outcome.Resolved? && !recovering ==>
                  after.callers[c] == Done(Answered(outcome.value)) && Sent(after, c) == 0)
            && (outcome.Resolved? && recovering && Truthy(outcome.value) ==>
                  && Sent(after, c) == 2 && after.callers[c].Retrying?
                  && after.callers[c].sentWith == if Truthy(s.key) then s.key else None)
            && (outcome.Resolved? && recovering && !Truthy(outcome.value) ==>
                  after.callers[c] == Done(Status(401)) && Sent(after, c) == 1)
  {
    var s := After(events + later);
    OutcomesLast(events, later, s.callers[c].flight, outcome);
    AfterOneMore(events + later, Resume(c));
    InvariantHolds(events + later);
    assert CallerIsSound(s, c);
  }

  lemma PhaseKept(s: State, e: Event, c: Caller)
    requires Enabled(s, e) && c in s.callers
    ensures c in Step(s, e).callers
    ensures s.callers[c].Done? ==> Step(s, e).callers[c] == s.callers[c] && Sent(Step(s, e), c) == Sent(s, c)
    ensures s.callers[c].Retrying? ==>
              Step(s, e).callers[c] == s.callers[c] || Answers(e, c, Step(s, e).callers[c])
    ensures s.callers[c].Requesting? && Step(s, e).callers[c] != s.callers[c] ==>
              (Discards(s, e) && e.caller == c) || Answers(e, c, Step(s, e).callers[c])
  {
  }

  /** The event is a reply to the caller, and its status the call's result. */
  predicate Answers(e: Event, c: Caller, phase: Phase) {
    e.Reply? && e.caller == c && phase == Done(Status(e.status))
  }

  /** A call's second reply is its result, whatever it is, and results are final. */
  lemma {:induction false} SecondReplyIsTheResult(events: seq<Event>, later: seq<Event>, c: Caller)
    requires c in After(events).callers && (After(events).callers[c].Retrying? || After(events).callers[c].Done?)
    ensures var s, after := After(events), After(events + later);
            && c in after.callers
            && (after.callers[c] != s.callers[c] ==>
                  s.callers[c].Retrying? && exists k :: 0 <= k < |later| && Answers(later[k], c, after.callers[c]))
  {
    if later == [] {
      assert events + later == events;
    } else {
      var n := |later| - 1;
      var before := events + later[..n];
      SecondReplyIsTheResult(events, later[..n], c);
      assert events + later == before + [later[n]];
      AfterOneMore(before, later[n]);
      if Enabled(After(before), later[n]) { PhaseKept(After(before), later[n], c); }
      if After(before).callers[c] != After(events).callers[c] {
        var k :| 0 <= k < n && Answers(later[..n][k], c, After(before).callers[c]);
        assert later[k] == later[..n][k];
      }
    }
  }

  /** A new call sends one request, with the stored key if it is to use one and there is one. */
  lemma CallsCarryTheKey(events: seq<Event>, c: Caller, useKey: bool)
    requires c !in After(events).callers
    ensures var s, after := After(events), After(events + [Send(c, useKey)]);
            && c in after.callers && after.callers[c].Requesting? && after.callers[c].useKey == useKey
            && Sent(after, c) == 1 && after.key == s.key
            && (after.callers[c].sentWith.Some? <==> useKey && Truthy(s.key))
            && (after.callers[c].sentWith.Some? ==> after.callers[c].sentWith == s.key)
  {
    InvariantHolds(events);
    assert CallerIsSound(After(events), c);
    AfterOneMore(events, Send(c, useKey));
  }

  /** A first reply is the result too, unless it is a 401 that discards the stored key. */
  lemma FirstReplyStandsUnlessRecovered(events: seq<Event>, c: Caller, status: nat)
    requires c in After(events).callers && After(events).callers[c].Requesting?
    ensures var s, after := After(events), After(events + [Reply(c, status)]);
            && c in after.callers
            && (if s.callers[c].useKey && status == 401 && Truthy(s.key)
                then after.callers[c].Recovering? && after.key == None
                else after.callers[c] == Done(Status(status)) && after.key == s.key)
  {
    AfterOneMore(events, Reply(c, status));
  }

  /** With a key stored a key request is answered at once; otherwise it waits for the pending flight. */
  lemma KeyRequests(events: seq<Event>, c: Caller)
    requires c !in After(events).callers
    ensures var s, after := After(events), After(events + [Ensure(c)]);
            && c in after.callers && after.key == s.key
            && (if s.key.Some? then after.callers[c] == Done(Answered(s.key)) && after.cache == s.cache
                else after.callers[c].Ensuring? && after.cache.pending == Some(after.callers[c].flight))
  {
    AfterOneMore(events, Ensure(c));
  }

  function Recovery(c: Caller, f: FlightId, key: Key): seq<Event> {
    [Reply(c, UNAUTHORISED), TaskStarts(f), SignupReplies(f, Some(key)), FinallyRuns(f), Resume(c)]
  }

  /**
   A recovery undisturbed: the flight signs up, the new key is stored, and the call's request is sent
   again with it.
   */
  lemma UndisturbedRecovery(events: seq<Event>, c: Caller, key: Key)
    requires Discards(After(events), Reply(c, UNAUTHORISED)) && After(events).cache.pending.None? && key != ""
    ensures var s, f := After(events), |After(events).cache.flights|;
            var after := After(events + Recovery(c, f, key));
            && c in after.callers && after.callers[c] == Retrying(Some(key)) && Sent(after, c) == 2
            && after.key == Some(key) && after.cache.pending.None? && after.signups == s.signups + [f]
  {
    var s, f := After(events), |After(events).cache.flights|;
    InvariantHolds(events);
    assert CallerIsSound(s, c);
    var one := events + [Reply(c, UNAUTHORISED)];
    AfterOneMore(events, Reply(c, UNAUTHORISED));
    var two := one + [TaskStarts(f)];
    AfterOneMore(one, TaskStarts(f));
    var three := two + [SignupReplies(f, Some(key))];
    AfterOneMore(two, SignupReplies(f, Some(key)));
    var four := three + [FinallyRuns(f)];
    AfterOneMore(three, FinallyRuns(f));
    AfterOneMore(four, Resume(c));
    assert events + Recovery(c, f, key) == four + [Resume(c)];
  }

  /** Without a reply, a task that finds a key gives it out and signs up nobody. */
  lemma TasksReuseAStoredKey(events: seq<Event>, f: FlightId)
    requires At(After(events).cache, f, Scheduled) && Truthy(After(events).key)
    ensures var s, after := After(events), After(events + [TaskStarts(f)]);
            HasOutcome(after, f, Resolved(s.key)) && after.signups == s.signups && after.key == s.key
  {
    AfterOneMore(events, TaskStarts(f));
  }

  /** A sign-up that throws rejects its flight; one without a key resolves it with none; the stored key stays. */
  lemma FailedSignups(events: seq<Event>, f: FlightId)
    requires SigningUp(After(events), f)
    ensures var s, after := After(events), After(events + [SignupThrows(f)]);
            HasOutcome(after, f, Rejected) && after.key == s.key
    ensures var s, after := After(events), After(events + [SignupReplies(f, None)]);
            HasOutcome(after, f, Resolved(None)) && after.key == s.key
  {
    AfterOneMore(events, SignupThrows(f));
    AfterOneMore(events, SignupReplies(f, None));
  }

  /** A caller that resumes - after success or failure - is never handed the flight it waited for. */
  lemma ResumedCallersGetANewFlight(events: seq<Event>, later: seq<Event>, c: Caller)
    requires Enabled(After(events), Resume(c))
    ensures Join(After(events + later).cache).1 != After(events).callers[c].flight
  {
    var f := After(events).callers[c].flight;
    InvariantHolds(events + later);
    FinishedStaysFinished(events, later, f);
    FinishedIsNotJoined(After(events + later).cache, f);
  }

  lemma {:induction false} FinishedStaysFinished(events: seq<Event>, later: seq<Event>, f: FlightId)
    requires f < |After(events).cache.flights| && After(events).cache.flights[f].Finished?
    ensures f < |After(events + later).cache.flights|
    ensures After(events + later).cache.flights[f] == After(events).cache.flights[f]
  {
    if later == [] {
      assert events + later == events;
    } else {
      var n := |later| - 1;
      var before := events + later[..n];
      FinishedStaysFinished(events, later[..n], f);
      assert events + later == before + [later[n]];
      AfterOneMore(before, later[n]);
      if Enabled(After(before), later[n]) {
        OutcomeLasts(After(before), later[n], f, After(events).cache.flights[f].outcome);
      }
    }
  }

  /** No call sends more than two requests, whatever replies it meets. */
  lemma AtMostOneRetry(events: seq<Event>, c: Caller)
    ensures Sent(After(events), c) <= 2
  {
    InvariantHolds(events);
    assert CallerIsSound(After(events), c);
  }

  /** Each flight signs up at most once. */
  lemma OneSignupPerFlight(events: seq<Event>, i: nat, j: nat)
    requires i < j < |After(events).signups|
    ensures After(events).signups[i] != After(events).signups[j]
  {
    InvariantHolds(events);
  }

  lemma AfterOneMore(events: seq<Event>, e: Event)
    ensures After(events + [e]) == if Enabled(After(events), e) then Step(After(events), e) else After(events)
  {
    assert (events + [e])[..|events|] == events;
  }

  // ----- How many sign-ups a run costs -----

  /** A 401 that discards the stored key. */
  predicate Discards(s: State, e: Event) {
    Unauthorised(s, e) && Truthy(s.key)
  }

  /** The request was answered 401, but the key discarded is not the one it was sent with. */
  predicate Late(s: State, e: Event) {
    Discards(s, e) && s.key != s.callers[e.caller].sentWith
  }

  /** Nor is anything learnt from it: the request carried no key, or one already rejected. */
  predicate Wasteful(s: State, e: Event) {
    Discards(s, e) && KeysOf(s.callers[e.caller].sentWith) <= s.rejected
  }

  predicate InFlight(s: State) {
    s.cache.pending.Some? && SigningUp(s, s.cache.pending.value)
  }

  /** A sign-up may start: no key is stored and none is being provisioned. */
  function Slack(s: State): nat {
    if Truthy(s.key) || InFlight(s) then 0 else 1
  }

  /** The reasons for a new sign-up so far: keys rejected, keys others cleared, sign-ups that gave none. */
  function Reasons(s: State): nat { |s.rejected| + s.cleared + s.failed }

  function Spent(s: State): nat { |s.signups| + Slack(s) }

  lemma ReplyBalances(s: State, e: Event)
    requires e.Reply? && Enabled(s, e) && Consistent(s.cache)
    ensures Reasons(s) <= Reasons(Step(s, e)) && Step(s, e).signups == s.signups
    ensures InFlight(Step(s, e)) == InFlight(s)
    ensures !Wasteful(s, e) ==> Spent(Step(s, e)) - Spent(s) <= Reasons(Step(s, e)) - Reasons(s)
  {
    JoinConsistent(s.cache);
    if Unauthorised(s, e) {
      var keys := KeysOf(s.callers[e.caller].sentWith);
      SubsetSize(s.rejected, keys);
    }
  }

  lemma SubsetSize(a: set<Key>, b: set<Key>)
    ensures |a| <= |a + b| && (!(b <= a) ==> |a| < |a + b|)
  {
    assert a + b == a + (b - a);
    if !(b <= a) {
      var k :| k in b && k !in a;
      assert k in b - a;
    }
  }

  lemma FlightBalances(s: State, e: Event)
    requires e.TaskStarts? || e.SignupReplies? || e.SignupThrows? || e.FinallyRuns?
    requires Enabled(s, e) && Consistent(s.cache)
    ensures Reasons(s) <= Reasons(Step(s, e))
    ensures Spent(Step(s, e)) - Spent(s) <= Reasons(Step(s, e)) - Reasons(s)
  {
    assert OnlyPendingIsOpen(s.cache, e.flight);
  }

  /** Every step that is not wasteful pays for the sign-ups it makes possible. */
  lemma StepBalances(s: State, e: Event)
    requires Enabled(s, e) && Consistent(s.cache)
    ensures Reasons(s) <= Reasons(Step(s, e))
    ensures !Wasteful(s, e) ==> Spent(Step(s, e)) - Spent(s) <= Reasons(Step(s, e)) - Reasons(s)
  {
    match e {
      case Reply(_, _) => ReplyBalances(s, e);
      case Ensure(_) => JoinConsistent(s.cache);
      case TaskStarts(_) => FlightBalances(s, e);
      case SignupReplies(_, _) => FlightBalances(s, e);
      case SignupThrows(_) => FlightBalances(s, e);
      case FinallyRuns(_) => FlightBalances(s, e);
      case _ =>
    }
  }

  /** The continuation has no reply that wastes a key. */
  predicate NothingWasted(events: seq<Event>, more: seq<Event>) {
    forall n :: 0 <= n < |more| ==> !Wasteful(After(events + more[..n]), more[n])
  }

  lemma NothingWastedBefore(events: seq<Event>, more: seq<Event>)
    requires more != [] && NothingWasted(events, more)
    ensures NothingWasted(events, more[..|more| - 1])
  {
    var k := |more| - 1;
    forall n | 0 <= n < k ensures !Wasteful(After(events + more[..k][..n]), more[..k][n]) {
      assert more[..k][..n] == more[..n];
    }
  }

  /** From any point of any run, sign-ups are bounded by the reasons for them, unless a key is wasted. */
  lemma {:induction false} SignupsHaveReasons(events: seq<Event>, more: seq<Event>)
    ensures Reasons(After(events)) <= Reasons(After(events + more))
    ensures NothingWasted(events, more) ==>
              Spent(After(events + more)) - Spent(After(events))
              <= Reasons(After(events + more)) - Reasons(After(events))
  {
    if more == [] {
      assert events + more == events;
    } else {
      var n := |more| - 1;
      var before := events + more[..n];
      assert events + more == before + [more[n]];
      SignupsHaveReasons(events, more[..n]);
      if NothingWasted(events, more) { NothingWastedBefore(events, more); }
      AfterOneMore(before, more[n]);
      InvariantHolds(before);
      if Enabled(After(before), more[n]) { StepBalances(After(before), more[n]); }
    }
  }

  /** A whole run with no wasted key signs up at most once more than it has reasons to. */
  lemma SignupsAreBounded(events: seq<Event>)
    requires NothingWasted([], events)
    ensures |After(events).signups| <= 1 + Reasons(After(events))
  {
    SignupsHaveReasons([], events);
    assert [] + events == events;
  }

  /** A sign-up that ends without a key. */
  predicate Fails(s: State, e: Event) {
    Enabled(s, e) && (e.SignupThrows? || (e.SignupReplies? && !Truthy(e.body)))
  }

  /** A stored key that others remove. */
  predicate Clears(s: State, e: Event) {
    e.Store? && Truthy(s.key) && !Truthy(e.stored)
  }

  function Failures(events: seq<Event>): nat {
    if events == [] then 0
    else
      var before, last := events[..|events| - 1], events[|events| - 1];
      Failures(before) + if Fails(After(before), last) then 1 else 0
  }

  function Clearings(events: seq<Event>): nat {
    if events == [] then 0
    else
      var before, last := events[..|events| - 1], events[|events| - 1];
      Clearings(before) + if Clears(After(before), last) then 1 else 0
  }

  /** The call's own request, sent with the key, is answered 401 at that point of the run. */
  predicate RejectsAt(events: seq<Event>, n: nat, key: Key)
    requires n < |events|
  {
    Unauthorised(After(events[..n]), events[n]) && After(events[..n]).callers[events[n].caller].sentWith == Some(key)
  }

  lemma CountersGrow(s: State, e: Event)
    requires Enabled(s, e)
    ensures Step(s, e).failed == s.failed + if Fails(s, e) then 1 else 0
    ensures Step(s, e).cleared == s.cleared + if Clears(s, e) then 1 else 0
  {
  }

  lemma {:induction false} CountersCount(events: seq<Event>)
    ensures After(events).failed == Failures(events) && After(events).cleared == Clearings(events)
  {
    if events != [] {
      var n := |events| - 1;
      CountersCount(events[..n]);
      if Enabled(After(events[..n]), events[n]) { CountersGrow(After(events[..n]), events[n]); }
    }
  }

  lemma OneMoreEvent(events: seq<Event>, key: Key)
    requires events != []
    ensures var n := |events| - 1;
            (exists k: nat :: k < |events| && RejectsAt(events, k, key)) <==>
            RejectsAt(events, n, key) || exists k: nat :: k < n && RejectsAt(events[..n], k, key)
  {
    var n := |events| - 1;
    forall k: nat | k < n ensures RejectsAt(events, k, key) <==> RejectsAt(events[..n], k, key) {
      assert events[..n][..k] == events[..k];
    }
  }

  lemma RejectedGrows(s: State, e: Event, key: Key)
    requires Enabled(s, e)
    ensures key in Step(s, e).rejected <==>
            key in s.rejected || (Unauthorised(s, e) && s.callers[e.caller].sentWith == Some(key))
  {
  }

  lemma {:induction false} RejectedKeys(events: seq<Event>, key: Key)
    ensures key in After(events).rejected <==> exists n: nat :: n < |events| && RejectsAt(events, n, key)
  {
    if events != [] {
      var n := |events| - 1;
      RejectedKeys(events[..n], key);
      OneMoreEvent(events, key);
      if Enabled(After(events[..n]), events[n]) { RejectedGrows(After(events[..n]), events[n], key); }
    }
  }

  /** The reasons are what they count: failed sign-ups, keys others cleared, and the different keys rejected. */
  lemma ReasonsAreCounted(events: seq<Event>, key: Key)
    ensures After(events).failed == Failures(events) && After(events).cleared == Clearings(events)
    ensures key in After(events).rejected <==> exists n: nat :: n < |events| && RejectsAt(events, n, key)
  {
    CountersCount(events);
    RejectedKeys(events, key);
  }

  // ----- Wasted keys are late replies -----

  /** The key an event stores, if any. */
  function Stored(e: Event): Option<Key> {
    match e
    case SignupReplies(_, body) => body
    case Store(stored) => stored
    case _ => None
  }

  /** No key is stored again once it was rejected. */
  predicate NeverRestored(events: seq<Event>) {
    forall n :: 0 <= n < |events| ==> KeysOf(Stored(events[n])) !! After(events[..n]).rejected
  }

  predicate NothingLate(events: seq<Event>) {
    forall n :: 0 <= n < |events| ==> !Late(After(events[..n]), events[n])
  }

  predicate KeyIsFresh(s: State) {
    Truthy(s.key) ==> s.key.value !in s.rejected
  }

  lemma KeyStaysFresh(s: State, e: Event)
    requires Enabled(s, e) && KeyIsFresh(s) && KeysOf(Stored(e)) !! s.rejected
    ensures KeyIsFresh(Step(s, e))
  {
  }

  lemma NeverRestoredBefore(events: seq<Event>, n: nat)
    requires NeverRestored(events) && n <= |events|
    ensures NeverRestored(events[..n])
  {
    forall k | 0 <= k < n ensures KeysOf(Stored(events[..n][k])) !! After(events[..n][..k]).rejected {
      assert events[..n][..k] == events[..k];
    }
  }

  lemma {:induction false} StoredKeyIsNotRejected(events: seq<Event>)
    requires NeverRestored(events)
    ensures KeyIsFresh(After(events))
  {
    if events != [] {
      var n := |events| - 1;
      NeverRestoredBefore(events, n);
      StoredKeyIsNotRejected(events[..n]);
      if Enabled(After(events[..n]), events[n]) { KeyStaysFresh(After(events[..n]), events[n]); }
    }
  }

  /** When rejected keys are not stored again, only late replies waste keys. */
  lemma WasteIsLate(events: seq<Event>, e: Event)
    requires NeverRestored(events) && Wasteful(After(events), e)
    ensures Late(After(events), e)
  {
    StoredKeyIsNotRejected(events);
  }

  /** With no late reply, every sign-up but one has its own rejected or cleared key or failed sign-up. */
  lemma PromptRepliesBoundSignups(events: seq<Event>)
    requires NeverRestored(events) && NothingLate(events)
    ensures |After(events).signups| <= 1 + Reasons(After(events))
  {
    forall n | 0 <= n < |events| ensures !Wasteful(After([] + events[..n]), events[n]) {
      var before := events[..n];
      assert [] + before == before;
      NeverRestoredBefore(events, n);
      if Wasteful(After(before), events[n]) { WasteIsLate(before, events[n]); }
    }
    SignupsAreBounded(events);
  }

  // ----- Wasted keys cost sign-ups -----

  /** A caller that has not been seen. */
  lemma {:induction false} NewCaller(callers: set<Caller>) returns (unused: Caller)
    ensures forall c :: c in callers ==> c < unused
  {
    if callers == {} {
      unused := 0;
    } else {
      var c :| c in callers;
      var rest := NewCaller(callers - {c});
      unused := if rest <= c then c + 1 else rest;
      assert forall d :: d in callers ==> d == c || d in callers - {c};
    }
  }

  /** No call is answered during the events. */
  predicate Quiet(events: seq<Event>) {
    forall n :: 0 <= n < |events| ==> !events[n].Reply?
  }

  /** One more sign-up, and no new reason for it. */
  predicate OneMoreSignup(s: State, after: State) {
    && |after.signups| == |s.signups| + 1
    && after.rejected == s.rejected && after.cleared == s.cleared && after.failed == s.failed
  }

  lemma ScheduledSignsUp(events: seq<Event>, f: FlightId)
    requires At(After(events).cache, f, Scheduled) && !Truthy(After(events).key)
    ensures OneMoreSignup(After(events), After(events + [TaskStarts(f)]))
  {
    AfterOneMore(events, TaskStarts(f));
  }

  /** With no flight pending, a new caller starts one, and it signs up. */
  lemma EnsureSignsUp(events: seq<Event>) returns (more: seq<Event>)
    requires After(events).key.None? && After(events).cache.pending.None?
    ensures Quiet(more) && OneMoreSignup(After(events), After(events + more))
  {
    var s := After(events);
    var c := NewCaller(s.callers.Keys);
    AfterOneMore(events, Ensure(c));
    var f := |s.cache.flights|;
    ScheduledSignsUp(events + [Ensure(c)], f);
    more := [Ensure(c), TaskStarts(f)];
    assert events + more == events + [Ensure(c)] + [TaskStarts(f)];
  }

  lemma PendingIsOpen(events: seq<Event>)
    requires After(events).cache.pending.Some?
    ensures var c := After(events).cache;
            c.pending.value < |c.flights| && !c.flights[c.pending.value].Finished?
  {
    InvariantHolds(events);
    assert OnlyPendingIsOpen(After(events).cache, After(events).cache.pending.value);
  }

  /** Without a key and with none being provisioned, a run can always go on to a sign-up. */
  lemma CanSignUp(events: seq<Event>) returns (more: seq<Event>)
    requires After(events).key.None? && !InFlight(After(events))
    ensures Quiet(more) && OneMoreSignup(After(events), After(events + more))
  {
    var s := After(events);
    if s.cache.pending.None? {
      more := EnsureSignsUp(events);
    } else {
      var f := s.cache.pending.value;
      PendingIsOpen(events);
      if s.cache.flights[f].Scheduled? {
        ScheduledSignsUp(events, f);
        more := [TaskStarts(f)];
      } else {
        AfterOneMore(events, FinallyRuns(f));
        var rest := EnsureSignsUp(events + [FinallyRuns(f)]);
        more := [FinallyRuns(f)] + rest;
        assert events + more == events + [FinallyRuns(f)] + rest;
      }
    }
  }

  /** The run goes on, without another reply, to a sign-up there is no new reason for. */
  ghost predicate CostsASignup(events: seq<Event>, s: State) {
    exists more :: Quiet(more) && Reasons(After(events + more)) == Reasons(s)
      && |After(events + more).signups| > |s.signups|
  }

  lemma QuietWastesNothing(events: seq<Event>, more: seq<Event>)
    requires Quiet(more)
    ensures NothingWasted(events, more)
  {
  }

  /**
   A 401 that discards a key can go on to cost a sign-up there is no reason for if and only if it is
   wasteful and finds no sign-up in flight.
   */
  lemma ExtraSignupsExactly(events: seq<Event>, e: Event)
    requires Discards(After(events), e)
    ensures CostsASignup(events + [e], After(events)) <==> Wasteful(After(events), e) && !InFlight(After(events))
  {
    var s, after := After(events), After(events + [e]);
    AfterOneMore(events, e);
    InvariantHolds(events);
    ReplyBalances(s, e);
    if Wasteful(s, e) && !InFlight(s) {
      assert s.rejected + KeysOf(s.callers[e.caller].sentWith) == s.rejected;
      var more := CanSignUp(events + [e]);
    }
    if CostsASignup(events + [e], s) {
      var more :| Quiet(more) && Reasons(After(events + [e] + more)) == Reasons(s)
                  && |After(events + [e] + more).signups| > |s.signups|;
      QuietWastesNothing(events + [e], more);
      SignupsHaveReasons(events + [e], more);
      DiscardsKeepReasonsExactlyWhenWasteful(s, e);
    }
  }

  lemma DiscardsKeepReasonsExactlyWhenWasteful(s: State, e: Event)
    requires Discards(s, e)
    ensures Reasons(Step(s, e)) == Reasons(s) <==> Wasteful(s, e)
  {
    var keys := KeysOf(s.callers[e.caller].sentWith);
    SubsetSize(s.rejected, keys);
    if keys <= s.rejected { assert s.rejected + keys == s.rejected; }
  }

  /**
   A late reply can always go on to one more sign-up: at most the key it was sent with is rejected on
   the way, and nothing is cleared or fails.  If rejected keys are not stored again, the key it
   discards is not among the rejected ones even then.
   */
  lemma LateRepliesCostASignup(events: seq<Event>, e: Event) returns (more: seq<Event>)
    requires Late(After(events), e) && !InFlight(After(events))
    ensures Quiet(more)
    ensures var s, after := After(events), After(events + [e] + more);
            && |after.signups| == |s.signups| + 1
            && after.rejected == s.rejected + (KeysOf(s.callers[e.caller].sentWith) - KeysOf(s.key))
            && after.cleared == s.cleared && after.failed == s.failed
            && (NeverRestored(events) ==> s.key.value !in after.rejected)
  {
    AfterOneMore(events, e);
    InvariantHolds(events);
    if NeverRestored(events) { StoredKeyIsNotRejected(events); }
    ReplyBalances(After(events), e);
    more := CanSignUp(events + [e]);
  }

  // ----- A late reply does happen -----

  /** Callers 1 and 2 both send the first key, and caller 1 meets a 401. */
  function FirstReply(): seq<Event> {
    [Store(Some("a"))] + [Send(1, true)] + [Send(2, true)] + [Reply(1, UNAUTHORISED)]
  }

  lemma AfterFirstReply()
    ensures var s := After(FirstReply());
            && s.key == None && s.cache == Cache(Some(0), [Scheduled]) && s.signups == []
            && s.rejected == {"a"} && s.cleared == 0 && s.failed == 0
            && 2 in s.callers && s.callers[2] == Requesting(true, Some("a"))
  {
    var e := [Store(Some("a"))];
    AfterOneMore([], Store(Some("a")));
    assert [] + e == e;
    AfterOneMore(e, Send(1, true));
    assert Truthy(After(e).key) && After(e).rejected == {};
    e := e + [Send(1, true)];
    AfterOneMore(e, Send(2, true));
    e := e + [Send(2, true)];
    assert After(e).callers == map[1 := Requesting(true, Some("a")), 2 := Requesting(true, Some("a"))];
    AfterOneMore(e, Reply(1, UNAUTHORISED));
  }

  /** The flight provisions a second key and ends, while caller 2 still waits for its reply. */
  function Provisioned(): seq<Event> {
    FirstReply() + [TaskStarts(0)] + [SignupReplies(0, Some("b"))] + [FinallyRuns(0)]
  }

  lemma AfterProvisioned()
    ensures var s := After(Provisioned());
            && s.key == Some("b") && s.cache == Cache(None, [Finished(Resolved(Some("b")))])
            && s.signups == [0] && s.rejected == {"a"} && s.cleared == 0 && s.failed == 0
            && 2 in s.callers && s.callers[2] == Requesting(true, Some("a"))
  {
    var e := FirstReply();
    AfterFirstReply();
    AfterOneMore(e, TaskStarts(0));
    e := e + [TaskStarts(0)];
    assert After(e).cache == Cache(Some(0), [Running]) && After(e).signups == [0];
    AfterOneMore(e, SignupReplies(0, Some("b")));
    e := e + [SignupReplies(0, Some("b"))];
    assert After(e).cache == Cache(Some(0), [Settled(Resolved(Some("b")))]);
    AfterOneMore(e, FinallyRuns(0));
  }

  /** So one expired key can cost two sign-ups: the second reply discards the key just provisioned. */
  lemma OneExpiryCanSignUpTwice() returns (events: seq<Event>)
    ensures |After(events).signups| == 2 && After(events).rejected == {"a"}
    ensures After(events).cleared == 0 && After(events).failed == 0
  {
    AfterProvisioned();
    var late := Reply(2, UNAUTHORISED);
    assert Wasteful(After(Provisioned()), late) && Late(After(Provisioned()), late);
    var more := LateRepliesCostASignup(Provisioned(), late);
    events := Provisioned() + [late] + more;
  }
}
