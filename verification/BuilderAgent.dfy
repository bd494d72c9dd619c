/**
 One tenant's agent, serving one request at a time: its transcript, its daily quota and the paid
 calls it makes.
 */
module BuilderAgent {
  import opened Wrappers
  import opened Quota

  datatype Message = User(content: string) | Assistant(content: string)

  const WINDOW: nat := 20

  /** `slice(-20)`. */
  function Window(messages: seq<Message>): seq<Message> {
    if |messages| <= WINDOW then messages else messages[|messages| - WINDOW..]
  }

  /** A window is the end of the messages: all of them, or the last twenty. */
  lemma WindowIsLastTwenty(messages: seq<Message>)
    ensures var part := Window(messages);
            && |part| == (if |messages| < 20 then |messages| else 20)
            && forall k :: 0 <= k < |part| ==> part[k] == messages[|messages| - |part| + k]
  {
  }

  lemma WindowOfWindow(a: seq<Message>, b: seq<Message>)
    ensures Window(Window(a) + b) == Window(a + b)
  {
    if |a| > WINDOW {
      assert a == a[..|a| - WINDOW] + Window(a);
      assert a + b == a[..|a| - WINDOW] + (Window(a) + b);
    }
  }

  lemma TurnsShowTheTranscript(transcript: seq<Message>, text: string, reply: string)
    ensures Window(Window(transcript) + [User(text)]) == Window(transcript + [User(text)])
    ensures Window(Window(transcript + [User(text)]) + [Assistant(reply)])
            == Window(transcript + [User(text), Assistant(reply)])
  {
    WindowOfWindow(transcript, [User(text)]);
    WindowOfWindow(transcript + [User(text)], [Assistant(reply)]);
    assert transcript + [User(text)] + [Assistant(reply)] == transcript + [User(text), Assistant(reply)];
  }

  // Refused by the tenant's limit or the global one, failed, or answered.
  datatype Response = TenantLimit | GlobalLimit | Unavailable | Reply(reply: string)

  class NeobankBuilder {
    const limit: nat
    var messages: seq<Message>
    var quota: Option<Quota>

    // The days of the requests that reached the quota, the paid calls of each day, and every
    // message of the successful turns.
    ghost var days: seq<Day>
    ghost var asked: multiset<Day>
    ghost var transcript: seq<Message>

    /** The quota counts every admission, every paid call was admitted, the messages end the transcript. */
    ghost predicate Valid()
      reads this
    {
      && quota == Book(days, limit)
      && (forall d :: asked[d] <= Grants(days, limit, d))
      && messages == Window(transcript)
    }

    constructor (limit: nat)
      ensures Valid() && this.limit == limit && days == [] && transcript == []
    {
      this.limit := limit;
      messages, quota := [], None;
      days, asked, transcript := [], multiset{}, [];
    }

    method Admit(day: Day) returns (ticket: Ticket)
      requires Valid()
      modifies this
      ensures Valid() && days == old(days) + [day] && asked == old(asked) && transcript == old(transcript)
      ensures ticket.allowed <==> Granted(old(days), day, limit)
      ensures ticket.allowed ==> quota == Some(ticket.quota) && asked[day] < Grants(days, limit, day)
    {
      forall d ensures Grants(days + [day], limit, d) >= Grants(days, limit, d) {
        BookExtends(days, day, limit, d);
      }
      BookExtends(days, day, limit, day);
      ticket := NextQuota(quota, day, limit);
      if ticket.allowed {
        quota := Some(ticket.quota);
      }
      days := days + [day];
    }

    /** The paid call of an admitted request: the model is shown the end of the whole transcript. */
    method Ask(text: string, day: Day) returns (history: seq<Message>)
      requires Valid() && asked[day] < Grants(days, limit, day)
      modifies this`asked
      ensures Valid() && asked == old(asked) + multiset{day}
      ensures history == Window(transcript + [User(text)])
      ensures 0 < |history| <= WINDOW && history[|history| - 1] == User(text)
    {
      history := Window(messages + [User(text)]);
      WindowOfWindow(transcript, [User(text)]);
      asked := asked + multiset{day};
    }

    /** An answer to the request just asked: the turn joins the transcript, the quota stays. */
    method Answer(text: string, history: seq<Message>, reply: string, captured: Quota)
      requires Valid() && quota == Some(captured) && history == Window(transcript + [User(text)])
      modifies this
      ensures Valid() && transcript == old(transcript) + [User(text), Assistant(reply)]
      ensures days == old(days) && asked == old(asked) && quota == old(quota)
      ensures 0 < |messages| <= WINDOW && messages[|messages| - 1] == Assistant(reply)
    {
      messages, quota := Window(history + [Assistant(reply)]), Some(captured);
      TurnsShowTheTranscript(transcript, text, reply);
      transcript := transcript + [User(text), Assistant(reply)];
    }

    /** A whole request; the model's answer is given, or fails. */
    method OnRequest(text: string, day: Day, stamp: Day, budget: BuilderBudget, globalLimit: nat,
                     answer: Option<string>)
      returns (response: Response)
      requires Valid() && budget.Valid(globalLimit)
      modifies this, budget
      ensures Valid() && budget.Valid(globalLimit) && days == old(days) + [day]
      ensures response.TenantLimit? <==> !Granted(old(days), day, limit)
      ensures response.GlobalLimit? <==>
              !response.TenantLimit? && !Granted(old(budget.stamps), stamp, globalLimit)
      ensures budget.stamps == old(budget.stamps) + if response.TenantLimit? then [] else [stamp]
      ensures asked == old(asked) + if response.Reply? || response.Unavailable? then multiset{day} else multiset{}
      ensures response.Reply? ==> answer == Some(response.reply)
      ensures transcript == old(transcript) + if response.Reply? then [User(text), Assistant(response.reply)] else []
    {
      var ticket := Admit(day);
      if !ticket.allowed {
        return TenantLimit;
      }
      var globalTicket := budget.Reserve(stamp, globalLimit);
      if !globalTicket.allowed {
        return GlobalLimit;
      }
      var history := Ask(text, day);
      if answer.None? {
        return Unavailable;
      }
      Answer(text, history, answer.value, ticket.quota);
      response := Reply(answer.value);
    }
  }

  /** Served like this, an agent never makes more paid calls for a day than its limit. */
  lemma AgentCeiling(agent: NeobankBuilder, day: Day)
    requires agent.Valid() && Contiguous(agent.days, day)
    ensures agent.asked[day] <= agent.limit
  {
    ContiguousGrants(agent.days, agent.limit, day);
  }
}
