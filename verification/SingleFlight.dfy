/**
 Coalescing concurrent calls into one flight.  A flight is a promise chain: the task is scheduled,
 runs, settles, and its `finally` clears the cache before anyone awaiting the flight resumes.
 */
module SingleFlight {
  import opened Wrappers

  datatype Outcome<+T> = Resolved(value: T) | Rejected

  // Settled: the task has an outcome, but `finally` has not run.  Finished: it has.
  datatype Stage<+T> = Scheduled | Running | Settled(outcome: Outcome<T>) | Finished(outcome: Outcome<T>)

  type FlightId = nat

  // Flights are numbered in the order they start.
  datatype Cache<+T> = Cache(pending: Option<FlightId>, flights: seq<Stage<T>>)

  function EmptyCache<T>(): Cache<T> { Cache(None, []) }

  /** Calling hands out the pending flight, or starts one. */
  function Join<T>(c: Cache<T>): (r: (Cache<T>, FlightId))
  {
    match c.pending
    case Some(f) => (c, f)
    case None => (Cache(Some(|c.flights|), c.flights + [Scheduled]), |c.flights|)
  }

  predicate At<T(==)>(c: Cache<T>, f: FlightId, stage: Stage<T>) {
    f < |c.flights| && c.flights[f] == stage
  }

  function TaskStart<T(==)>(c: Cache<T>, f: FlightId): Cache<T>
    requires At(c, f, Scheduled)
  {
    c.(flights := c.flights[f := Running])
  }

  function TaskSettle<T(==)>(c: Cache<T>, f: FlightId, outcome: Outcome<T>): Cache<T>
    requires At(c, f, Running)
  {
    c.(flights := c.flights[f := Settled(outcome)])
  }

  /** `finally` clears the cache, whatever the outcome, and lets the awaiting callers resume. */
  function Clear<T>(c: Cache<T>, f: FlightId): Cache<T>
    requires f < |c.flights| && c.flights[f].Settled?
  {
    Cache(None, c.flights[f := Finished(c.flights[f].outcome)])
  }

  // ----- What every step keeps -----

  /** The pending flight is the one flight that is not finished. */
  ghost predicate Consistent<T>(c: Cache<T>) {
    forall f: nat :: OnlyPendingIsOpen(c, f)
  }

  predicate OnlyPendingIsOpen<T>(c: Cache<T>, f: FlightId) {
    c.pending == Some(f) <==> f < |c.flights| && !c.flights[f].Finished?
  }

  lemma JoinConsistent<T>(c: Cache<T>)
    requires Consistent(c)
    ensures Consistent(Join(c).0)
    ensures var (after, f) := Join(c);
            && after.pending == Some(f) && f < |after.flights| && !after.flights[f].Finished?
            && |c.flights| <= |after.flights|
            && forall g :: 0 <= g < |c.flights| ==> after.flights[g] == c.flights[g]
  {
    var (after, h) := Join(c);
    forall f: nat ensures OnlyPendingIsOpen(after, f) {
      assert OnlyPendingIsOpen(c, f);
    }
    assert OnlyPendingIsOpen(after, h);
  }

  lemma StageConsistent<T>(c: Cache<T>, f: FlightId, stage: Stage<T>)
    requires Consistent(c) && f < |c.flights| && !c.flights[f].Finished? && !stage.Finished?
    ensures Consistent(c.(flights := c.flights[f := stage]))
  {
    var after := c.(flights := c.flights[f := stage]);
    forall g: nat ensures OnlyPendingIsOpen(after, g) {
      assert OnlyPendingIsOpen(c, g);
    }
  }

  lemma ClearConsistent<T>(c: Cache<T>, f: FlightId)
    requires Consistent(c) && f < |c.flights| && c.flights[f].Settled?
    ensures Consistent(Clear(c, f))
  {
    var after := Clear(c, f);
    assert OnlyPendingIsOpen(c, f);
    forall g: nat ensures OnlyPendingIsOpen(after, g) {
      assert OnlyPendingIsOpen(c, g);
    }
  }

  lemma OpenFlightsAreOne<T>(c: Cache<T>, f: FlightId, g: FlightId)
    requires Consistent(c) && f < |c.flights| && g < |c.flights|
    requires !c.flights[f].Finished? && !c.flights[g].Finished?
    ensures f == g && c.pending == Some(f)
  {
    assert OnlyPendingIsOpen(c, f) && OnlyPendingIsOpen(c, g);
  }

  lemma FinishedIsNotJoined<T>(c: Cache<T>, f: FlightId)
    requires Consistent(c) && f < |c.flights| && c.flights[f].Finished?
    ensures Join(c).1 != f
  {
    assert OnlyPendingIsOpen(c, f);
  }

  // ----- The closure -----

  /** The closure `createSingleFlight` returns, with its captured variable and the promises it made. */
  class Flights<T(==)> {
    var pending: Option<FlightId>
    var flights: seq<Stage<T>>

    ghost function State(): Cache<T>
      reads this
    {
      Cache(pending, flights)
    }

    ghost predicate Valid()
      reads this
    {
      Consistent(State())
    }

    constructor ()
      ensures Valid() && pending == None && flights == []
    {
      pending, flights := None, [];
      new;
      forall f: nat ensures OnlyPendingIsOpen(State(), f) {}
    }

    /** A caller gets the open flight if there is one, else a new one; nothing else changes. */
    method Call() returns (f: FlightId)
      requires Valid()
      modifies this
      ensures Valid() && pending == Some(f) && f < |flights| && !flights[f].Finished?
      ensures (exists g: nat :: g < |old(flights)| && !old(flights)[g].Finished?) ==> flights == old(flights)
      ensures (forall g: nat :: g < |old(flights)| ==> old(flights)[g].Finished?) ==>
                f == |old(flights)| && flights == old(flights) + [Scheduled]
    {
      ghost var before := State();
      JoinConsistent(before);
      forall g: nat | g < |flights| && !flights[g].Finished? ensures pending == Some(g) {
        assert OnlyPendingIsOpen(before, g);
      }
      if pending.None? {
        pending := Some(|flights|);
        flights := flights + [Scheduled];
      }
      f := pending.value;
      assert State() == Join(before).0;
      assert before.pending.Some? ==> OnlyPendingIsOpen(before, before.pending.value);
    }

    /** The task starts in a turn of its own. */
    method Start(f: FlightId)
      requires Valid() && f < |flights| && flights[f].Scheduled?
      modifies this`flights
      ensures Valid() && flights == old(flights)[f := Running]
    {
      StageConsistent(State(), f, Running);
      flights := flights[f := Running];
    }

    /** The running task settles. */
    method Settle(f: FlightId, outcome: Outcome<T>)
      requires Valid() && f < |flights| && flights[f].Running?
      modifies this`flights
      ensures Valid() && flights == old(flights)[f := Settled(outcome)]
    {
      StageConsistent(State(), f, Settled(outcome));
      flights := flights[f := Settled(outcome)];
    }

    /** After `finally` no flight is open: the cache is empty, and no other flight was touched. */
    method Finally(f: FlightId)
      requires Valid() && f < |flights| && flights[f].Settled?
      modifies this
      ensures Valid() && pending == None && |flights| == |old(flights)|
      ensures forall g :: 0 <= g < |flights| ==> flights[g].Finished? && (g != f ==> flights[g] == old(flights)[g])
      ensures flights[f].outcome == old(flights)[f].outcome
    {
      ClearConsistent(State(), f);
      flights := flights[f := Finished(flights[f].outcome)];
      pending := None;
      forall g: nat | g < |flights| ensures flights[g].Finished? {
        assert OnlyPendingIsOpen(State(), g);
      }
    }
  }

  // ----- Runs -----

  datatype Move<T> =
    | Calls
    | Starts(flight: FlightId)
    | Settles(flight: FlightId, outcome: Outcome<T>)
    | Finishes(flight: FlightId)

  /** The cache after a run; moves that are not possible do not happen. */
  function Flown<T(==)>(moves: seq<Move<T>>): Cache<T> {
    if moves == [] then EmptyCache() else Moved(Flown(moves[..|moves| - 1]), moves[|moves| - 1])
  }

  function Moved<T(==)>(c: Cache<T>, move: Move<T>): Cache<T> {
    match move
    case Calls => Join(c).0
    case Starts(f) => if At(c, f, Scheduled) then TaskStart(c, f) else c
    case Settles(f, outcome) => if At(c, f, Running) then TaskSettle(c, f, outcome) else c
    case Finishes(f) => if f < |c.flights| && c.flights[f].Settled? then Clear(c, f) else c
  }

  lemma MovedStaysConsistent<T>(c: Cache<T>, move: Move<T>)
    requires Consistent(c)
    ensures Consistent(Moved(c, move))
  {
    match move {
      case Calls => JoinConsistent(c);
      case Starts(f) => if At(c, f, Scheduled) { StageConsistent(c, f, Running); }
      case Settles(f, outcome) => if At(c, f, Running) { StageConsistent(c, f, Settled(outcome)); }
      case Finishes(f) => if f < |c.flights| && c.flights[f].Settled? { ClearConsistent(c, f); }
    }
  }

  lemma {:induction false} RunsAreConsistent<T>(moves: seq<Move<T>>)
    ensures Consistent(Flown(moves))
  {
    if moves == [] {
      forall f: nat ensures OnlyPendingIsOpen(EmptyCache<T>(), f) {}
    } else {
      RunsAreConsistent(moves[..|moves| - 1]);
      MovedStaysConsistent(Flown(moves[..|moves| - 1]), moves[|moves| - 1]);
    }
  }

  /** In every run, two flights that are not finished are the same flight, and it is the one handed out. */
  lemma AtMostOneOpen<T>(moves: seq<Move<T>>, f: FlightId, g: FlightId)
    requires var c := Flown(moves); f < |c.flights| && g < |c.flights|
    requires !Flown(moves).flights[f].Finished? && !Flown(moves).flights[g].Finished?
    ensures f == g == Join(Flown(moves)).1
  {
    RunsAreConsistent(moves);
    OpenFlightsAreOne(Flown(moves), f, g);
  }

  lemma FinishedIsForGood<T>(c: Cache<T>, move: Move<T>, f: FlightId)
    requires f < |c.flights| && c.flights[f].Finished?
    ensures f < |Moved(c, move).flights| && Moved(c, move).flights[f] == c.flights[f]
  {
  }

  lemma {:induction false} FinishedLasts<T>(moves: seq<Move<T>>, later: seq<Move<T>>, f: FlightId)
    requires f < |Flown(moves).flights| && Flown(moves).flights[f].Finished?
    ensures f < |Flown(moves + later).flights| && Flown(moves + later).flights[f] == Flown(moves).flights[f]
  {
    if later == [] {
      assert moves + later == moves;
    } else {
      var n := |later| - 1;
      FinishedLasts(moves, later[..n], f);
      assert (moves + later)[..|moves + later| - 1] == moves + later[..n];
      FinishedIsForGood(Flown(moves + later[..n]), later[n], f);
    }
  }

  /** Once a flight is finished, no later call of any run is handed it. */
  lemma NeverTheFinishedFlight<T>(moves: seq<Move<T>>, later: seq<Move<T>>, f: FlightId)
    requires f < |Flown(moves).flights| && Flown(moves).flights[f].Finished?
    ensures Join(Flown(moves + later)).1 != f
  {
    FinishedLasts(moves, later, f);
    RunsAreConsistent(moves + later);
    FinishedIsNotJoined(Flown(moves + later), f);
  }
}
