/**
 Daily request quotas, used alike for the account-wide budget and for each tenant's own limit, and
 the exact reservations a sequence of day stamps is granted.
 */
module Quota {
  import opened Wrappers

  // A calendar day, in order.
  type Day = int

  datatype Quota = Quota(day: Day, used: nat)

  datatype Ticket = Ticket(allowed: bool, quota: Quota, remaining: nat)

  function NextQuota(previous: Option<Quota>, day: Day, limit: nat): Ticket {
    var current := if previous.Some? && previous.value.day == day then previous.value else Quota(day, 0);
    if current.used >= limit then Ticket(false, current, 0)
    else
      var quota := Quota(day, current.used + 1);
      Ticket(true, quota, limit - quota.used)
  }

  /** The quota kept after asking: the new one when allowed, the old one otherwise. */
  function Kept(previous: Option<Quota>, day: Day, limit: nat): Option<Quota> {
    var ticket := NextQuota(previous, day, limit);
    if ticket.allowed then Some(ticket.quota) else previous
  }

  /** The one object that counts the paid model calls of all tenants. */
  class BuilderBudget {
    var quota: Option<Quota>

    // The day stamps of all reservations asked for, in order.
    ghost var stamps: seq<Day>

    /** The quota is what the stamps make it. */
    ghost predicate Valid(limit: nat)
      reads this
    {
      quota == Book(stamps, limit)
    }

    constructor ()
      ensures stamps == [] && forall limit :: Valid(limit)
    {
      quota, stamps := None, [];
    }

    method Reserve(day: Day, limit: nat) returns (ticket: Ticket)
      requires Valid(limit)
      modifies this
      ensures Valid(limit) && stamps == old(stamps) + [day]
      ensures ticket.allowed <==> Granted(old(stamps), day, limit)
      ensures Contiguous(stamps, day) ==> ticket.remaining == limit - Grants(stamps, limit, day)
    {
      BookExtends(stamps, day, limit, day);
      if Contiguous(stamps + [day], day) {
        RemainingIsWhatIsLeft(stamps, day, limit);
      }
      ticket := NextQuota(quota, day, limit);
      if ticket.allowed {
        quota := Some(ticket.quota);
      }
      stamps := stamps + [day];
    }
  }

  const MAX_SAFE_INTEGER: nat := 9_007_199_254_740_991

  predicate PositiveSafe(parsed: Option<int>) {
    parsed.Some? && 0 < parsed.value <= MAX_SAFE_INTEGER
  }

  /** A configured limit: a positive safe integer is kept up to the maximum, anything else falls back. */
  function PositiveInteger(parsed: Option<int>, fallback: nat, maximum: nat): (limit: nat)
    ensures parsed.Some? && 1 <= parsed.value < MAX_SAFE_INTEGER + 1 ==>
              limit <= parsed.value && limit <= maximum && (limit == parsed.value || limit == maximum)
    ensures parsed.None? || parsed.value <= 0 || parsed.value > MAX_SAFE_INTEGER ==> limit == fallback
    ensures 0 < fallback <= maximum ==> 0 < limit <= maximum
  {
    if PositiveSafe(parsed) then (if parsed.value < maximum then parsed.value else maximum)
    else fallback
  }

  // ----- A sequence of reservations -----

  /** The quota after a sequence of reservations under one limit. */
  function Book(stamps: seq<Day>, limit: nat): Option<Quota> {
    if stamps == [] then None
    else Kept(Book(stamps[..|stamps| - 1], limit), stamps[|stamps| - 1], limit)
  }

  /** Whether the next reservation is granted. */
  predicate Granted(stamps: seq<Day>, day: Day, limit: nat) {
    NextQuota(Book(stamps, limit), day, limit).allowed
  }

  /** How many reservations a day was granted. */
  function Grants(stamps: seq<Day>, limit: nat, day: Day): nat {
    if stamps == [] then 0
    else
      var before, last := stamps[..|stamps| - 1], stamps[|stamps| - 1];
      Grants(before, limit, day) + if last == day && Granted(before, last, limit) then 1 else 0
  }

  lemma BookExtends(stamps: seq<Day>, day: Day, limit: nat, other: Day)
    ensures Book(stamps + [day], limit) == Kept(Book(stamps, limit), day, limit)
    ensures Grants(stamps + [day], limit, other) ==
            Grants(stamps, limit, other) + if day == other && Granted(stamps, day, limit) then 1 else 0
  {
    assert (stamps + [day])[..|stamps|] == stamps;
  }

  /** The stamps of a day form one block. */
  predicate Contiguous(stamps: seq<Day>, day: Day) {
    forall i, j, k :: 0 <= i < j < k < |stamps| && stamps[i] == day && stamps[k] == day ==> stamps[j] == day
  }

  predicate NonDecreasing(stamps: seq<Day>) {
    forall i, j :: 0 <= i < j < |stamps| ==> stamps[i] <= stamps[j]
  }

  lemma {:induction false} BookHoldsLastDay(stamps: seq<Day>, limit: nat)
    requires limit > 0 && stamps != []
    ensures Book(stamps, limit).Some? && Book(stamps, limit).value.day == stamps[|stamps| - 1]
    ensures 1 <= Book(stamps, limit).value.used <= limit
  {
    if |stamps| > 1 { BookHoldsLastDay(stamps[..|stamps| - 1], limit); }
  }

  lemma {:induction false} NoStampNoGrant(stamps: seq<Day>, limit: nat, day: Day)
    requires limit == 0 || day !in stamps
    ensures Grants(stamps, limit, day) == 0
    ensures limit == 0 ==> Book(stamps, limit) == None
  {
    if stamps != [] { NoStampNoGrant(stamps[..|stamps| - 1], limit, day); }
  }

  lemma {:induction false} ContiguousGrants(stamps: seq<Day>, limit: nat, day: Day)
    requires Contiguous(stamps, day)
    ensures Grants(stamps, limit, day) <= limit
    ensures limit > 0 && stamps != [] && stamps[|stamps| - 1] == day ==>
              Book(stamps, limit) == Some(Quota(day, Grants(stamps, limit, day)))
  {
    if limit == 0 {
      NoStampNoGrant(stamps, limit, day);
    } else if stamps != [] {
      var n := |stamps| - 1;
      var before := stamps[..n];
      ContiguousGrants(before, limit, day);
      if stamps[n] == day {
        if n > 0 {
          BookHoldsLastDay(before, limit);
          if before[n - 1] != day {
            assert stamps[n - 1] != day;
            assert forall i :: 0 <= i < n ==> stamps[i] == before[i];
            assert day !in before;
            NoStampNoGrant(before, limit, day);
          }
        } else {
          NoStampNoGrant(before, limit, day);
        }
      }
    }
  }

  /** The count of requests left that a caller is told is exactly what its day has left. */
  lemma RemainingIsWhatIsLeft(stamps: seq<Day>, day: Day, limit: nat)
    requires Contiguous(stamps + [day], day)
    ensures NextQuota(Book(stamps, limit), day, limit).remaining == limit - Grants(stamps + [day], limit, day)
  {
    var longer := stamps + [day];
    BookExtends(stamps, day, limit, day);
    ContiguousGrants(longer, limit, day);
    if limit == 0 { NoStampNoGrant(longer, limit, day); }
    if limit > 0 && stamps != [] { BookHoldsLastDay(stamps, limit); }
  }

  lemma ContiguousExtends(stamps: seq<Day>, last: Day, day: Day)
    ensures Contiguous(stamps + [last], day) <==>
            Contiguous(stamps, day) && (last == day && day in stamps ==> stamps[|stamps| - 1] == day)
  {
    var longer, n := stamps + [last], |stamps|;
    forall i | 0 <= i < n ensures longer[i] == stamps[i] {}
    if Contiguous(longer, day) {
      forall i, j, k | 0 <= i < j < k < n && stamps[i] == day && stamps[k] == day ensures stamps[j] == day {
        assert longer[i] == day && longer[k] == day;
      }
      if last == day && day in stamps {
        var i :| 0 <= i < n && stamps[i] == day;
        assert longer[i] == day && longer[n] == day;
        assert i < n - 1 ==> longer[n - 1] == day;
      }
    }
  }

  function Min(a: nat, b: nat): nat { if a < b then a else b }

  /** What the counter of the last day has used, and how little the grants of a day can fall short. */
  ghost predicate CountsAtLeast(stamps: seq<Day>, limit: nat, day: Day) {
    var count, grants := multiset(stamps)[day], Grants(stamps, limit, day);
    && Min(count, limit) <= grants <= count
    && (!Contiguous(stamps, day) ==> Min(count, limit + 1) <= grants)
    && (stamps != [] && stamps[|stamps| - 1] == day ==>
          var book := Book(stamps, limit);
          book.Some? && book.value.used <= count && (!Contiguous(stamps, day) ==> book.value.used < count))
  }

  lemma CountsOneMore(stamps: seq<Day>, last: Day, limit: nat, day: Day)
    requires limit > 0 && CountsAtLeast(stamps, limit, day)
    ensures CountsAtLeast(stamps + [last], limit, day)
  {
    var longer := stamps + [last];
    BookExtends(stamps, last, limit, day);
    ContiguousExtends(stamps, last, day);
    assert multiset(longer) == multiset(stamps) + multiset{last};
    assert longer[|longer| - 1] == last;
    assert day in stamps <==> multiset(stamps)[day] > 0;
    if stamps != [] { BookHoldsLastDay(stamps, limit); }
  }

  lemma {:induction false} GrantsAreMany(stamps: seq<Day>, limit: nat, day: Day)
    requires limit > 0
    ensures CountsAtLeast(stamps, limit, day)
  {
    if stamps != [] {
      var n := |stamps| - 1;
      GrantsAreMany(stamps[..n], limit, day);
      CountsOneMore(stamps[..n], stamps[n], limit, day);
      assert stamps == stamps[..n] + [stamps[n]];
    }
  }

  /** The day's stamps form one block, or are no more than the limit; a limit of none grants nothing. */
  predicate StampsKeep(stamps: seq<Day>, limit: nat, day: Day) {
    limit == 0 || Contiguous(stamps, day) || multiset(stamps)[day] <= limit
  }

  /** A day is granted at most a limit if and only if its stamps form one block or are no more than the limit. */
  lemma CeilingExactly(stamps: seq<Day>, limit: nat, day: Day)
    ensures Grants(stamps, limit, day) <= limit <==> StampsKeep(stamps, limit, day)
  {
    if limit == 0 {
      NoStampNoGrant(stamps, limit, day);
    } else {
      GrantsAreMany(stamps, limit, day);
      if Contiguous(stamps, day) { ContiguousGrants(stamps, limit, day); }
    }
  }

  /**
   A day is granted at most the limit, whatever the limit, if and only if its stamps reach the
   counter as one block.
   */
  lemma CeilingExactlyForContiguousStamps(stamps: seq<Day>, day: Day)
    ensures (forall limit :: Grants(stamps, limit, day) <= limit) <==> Contiguous(stamps, day)
  {
    forall limit: nat ensures Grants(stamps, limit, day) <= limit <==> StampsKeep(stamps, limit, day) {
      CeilingExactly(stamps, limit, day);
    }
    if !Contiguous(stamps, day) {
      var i, j, k :| 0 <= i < j < k < |stamps| && stamps[i] == day && stamps[k] == day && stamps[j] != day;
      TwoStamps(stamps, i, k);
      assert Grants(stamps, 1, day) > 1;
    }
  }

  lemma TwoStamps(stamps: seq<Day>, i: nat, k: nat)
    requires i < k < |stamps| && stamps[i] == stamps[k]
    ensures multiset(stamps)[stamps[i]] >= 2
  {
    assert stamps == stamps[..k] + stamps[k..];
    assert stamps[..k][i] in stamps[..k] && stamps[k..][0] in stamps[k..];
  }

  lemma NonDecreasingIsContiguous(stamps: seq<Day>, day: Day)
    requires NonDecreasing(stamps)
    ensures Contiguous(stamps, day)
  {
  }
}
