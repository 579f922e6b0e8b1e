/**
 The subscription collector of `configure`. The bot's `/subscribe` and
 `/end` handlers become one step function, and the polling loop becomes a
 left fold of that step over the inbound events in arrival order.
 */
module Collector {
  import opened Wrappers
  import opened Text

  /** An inbound bot command: the message text of a `/subscribe` command and
      its sender's user id, or an `/end` command and its sender. */
  datatype Event = Subscribe(text: string, sender: int) | End(sender: int)

  /** One outbound reply or message to a user. */
  datatype Reply = Reply(to: int, text: string)

  /** The handlers' shared state: the alias registrations so far (the
      module-level `USER_DICT`), whether polling goes on, and the replies sent. */
  datatype State = State(pending: map<string, int>, listening: bool, replies: seq<Reply>)

  const Initial: State := State(map[], true, [])

  const UsageReply: string := "use /subscribe '[username]' to subscribe"
  const EndingReply: string := "Ending bot"

  function SubscribedReply(name: string): string
  {
    "Subscribed user " + name + " successfully"
  }

  /** `text.split(" ")[1]`, with `None` where the index raises `IndexError`. */
  function SubscribeName(text: string): (name: Option<string>)
    ensures name.Some? <==> ' ' in text
    ensures name.Some? ==> ' ' !in name.value
  {
    SplitFieldCount(text, ' ');
    var fields := Split(text, ' ');
    if |fields| >= 2 then Some(fields[1]) else None
  }

  /** The name is the word after the first single space; later words are ignored. */
  lemma SubscribeNameOf(command: string, name: string, rest: string)
    requires ' ' !in command && ' ' !in name
    ensures SubscribeName(command + " " + name) == Some(name)
    ensures SubscribeName(command + " " + name + " " + rest) == Some(name)
  {
    SplitSingle(command, ' ');
    SplitSingle(name, ' ');
    SplitAround(command, ' ', name);
    SplitAround(name, ' ', rest);
    SplitAround(command, ' ', name + " " + rest);
    assert command + " " + name + " " + rest == command + [' '] + (name + [' '] + rest);
  }

  /** Every key of `m` is in `m'` with the same value. */
  predicate Extends(m: map<string, int>, m': map<string, int>)
  {
    forall k :: k in m ==> k in m' && m'[k] == m[k]
  }

  /** `d.setdefault(k, v)`: adds `k` only when it is absent. */
  function SetDefault(m: map<string, int>, k: string, v: int): (r: map<string, int>)
    ensures Extends(m, r)
    ensures r.Keys == m.Keys + {k}
    ensures k !in m ==> r[k] == v
  {
    if k in m then m else m[k := v]
  }

  /** The reply each handled event produces; it depends only on the event, so
      a repeated `/subscribe` of a taken name is still acknowledged. */
  function ReplyFor(e: Event): (r: Reply)
    ensures r.to == e.sender
    ensures e.End? ==> r.text == EndingReply
    ensures e.Subscribe? ==> (r.text == UsageReply <==> ' ' !in e.text)
    ensures e.Subscribe? && ' ' in e.text ==> r.text == SubscribedReply(SubscribeName(e.text).value)
  {
    match e
    case Subscribe(text, sender) =>
      (match SubscribeName(text)
       case Some(name) =>
         assert SubscribedReply(name)[0] != UsageReply[0];
         Reply(sender, SubscribedReply(name))
       case None => Reply(sender, UsageReply))
    case End(sender) => Reply(sender, EndingReply)
  }

  /** One handler invocation; once polling stopped, events are not handled. */
  function Step(c: State, e: Event): (c': State)
    ensures !c.listening ==> c' == c
    ensures Extends(c.pending, c'.pending)
    ensures c.listening ==> c'.replies == c.replies + [ReplyFor(e)]
    ensures c.listening ==> (c'.listening <==> e.Subscribe?)
    ensures e.End? || (e.Subscribe? && SubscribeName(e.text).None?) ==> c'.pending == c.pending
    ensures c.listening && e.Subscribe? && SubscribeName(e.text).Some? ==>
      var name := SubscribeName(e.text).value;
      && c'.pending.Keys == c.pending.Keys + {name}
      && c'.pending[name] == (if name in c.pending then c.pending[name] else e.sender)
  {
    if !c.listening then c
    else
      match e
      case Subscribe(text, sender) =>
        (match SubscribeName(text)
         case Some(name) => c.(pending := SetDefault(c.pending, name, sender), replies := c.replies + [ReplyFor(e)])
         case None => c.(replies := c.replies + [ReplyFor(e)]))
      case End(sender) => c.(listening := false, replies := c.replies + [ReplyFor(e)])
  }

  /** The polling loop: the events handled one at a time in arrival order.
      A reply once sent is never taken back. */
  function Run(c: State, events: seq<Event>): (r: State)
    ensures c.replies <= r.replies
    decreases |events|
  {
    if |events| == 0 then c else Run(Step(c, events[0]), events[1..])
  }

  /** `configure`'s polling from a fresh state. */
  function Collect(events: seq<Event>): State
  {
    Run(Initial, events)
  }

  /** Reference definition: the sender of the first `/subscribe` naming
      `name` that arrives before the first `/end`. */
  function Registrant(events: seq<Event>, name: string): Option<int>
    decreases |events|
  {
    if |events| == 0 then None
    else
      match events[0]
      case End(_) => None
      case Subscribe(text, sender) =>
        if SubscribeName(text) == Some(name) then Some(sender) else Registrant(events[1..], name)
  }

  /** How many events are handled: those up to and including the first `/end`. */
  function Handled(events: seq<Event>): (n: nat)
    ensures n <= |events|
    decreases |events|
  {
    if |events| == 0 then 0
    else if events[0].End? then 1
    else 1 + Handled(events[1..])
  }

  /** Registrations are never overwritten or removed by later events. */
  lemma {:induction false} RunKeepsRegistrations(c: State, events: seq<Event>)
    ensures Extends(c.pending, Run(c, events).pending)
    decreases |events|
  {
    if |events| > 0 {
      RunKeepsRegistrations(Step(c, events[0]), events[1..]);
    }
  }

  /** After polling stopped nothing changes. */
  lemma {:induction false} RunAfterEnd(c: State, events: seq<Event>)
    requires !c.listening
    ensures Run(c, events) == c
    decreases |events|
  {
    if |events| > 0 {
      RunAfterEnd(Step(c, events[0]), events[1..]);
    }
  }

  /** Handling `a` then `b` is handling `a + b`. */
  lemma {:induction false} RunAppend(c: State, a: seq<Event>, b: seq<Event>)
    ensures Run(c, a + b) == Run(Run(c, a), b)
    decreases |a|
  {
    if |a| > 0 {
      assert (a + b)[0] == a[0];
      assert (a + b)[1..] == a[1..] + b;
      RunAppend(Step(c, a[0]), a[1..], b);
    } else {
      assert a + b == b;
    }
  }

  /** Events after an `/end` change neither the registrations nor the replies. */
  lemma EndIsFinal(events: seq<Event>, i: nat)
    requires i < |events| && events[i].End?
    ensures !Collect(events).listening
    ensures Collect(events) == Collect(events[..i + 1])
  {
    var a := events[..i + 1];
    var b := events[i + 1..];
    assert events == a + b;
    RunAppend(Initial, a, b);
    assert a == events[..i] + [events[i]];
    RunAppend(Initial, events[..i], [events[i]]);
    var before := Collect(events[..i]);
    if before.listening {
      assert !Step(before, events[i]).listening;
    } else {
      RunAfterEnd(before, [events[i]]);
    }
    RunAfterEnd(Collect(a), b);
  }

  /** From a listening state, each alias ends up with its earlier
      registration if it had one, else with its first subscriber before `/end`. */
  lemma {:induction false} RunRegistrant(c: State, events: seq<Event>, name: string)
    requires c.listening
    ensures name in Run(c, events).pending <==> name in c.pending || Registrant(events, name).Some?
    ensures name in Run(c, events).pending ==>
      Run(c, events).pending[name] == (if name in c.pending then c.pending[name] else Registrant(events, name).value)
    decreases |events|
  {
    if |events| > 0 {
      var c' := Step(c, events[0]);
      if c'.listening {
        RunRegistrant(c', events[1..], name);
      } else {
        RunAfterEnd(c', events[1..]);
      }
    }
  }

  /** The collected registrations are exactly the first subscriber of each
      name before the first `/end`. */
  lemma CollectedRegistrations(events: seq<Event>, name: string)
    ensures name in Collect(events).pending <==> Registrant(events, name).Some?
    ensures name in Collect(events).pending ==> Collect(events).pending[name] == Registrant(events, name).value
  {
    RunRegistrant(Initial, events, name);
  }

  /** Polling goes on exactly while no `/end` has arrived; each handled event
      gets its reply, in order, and unhandled ones get none. */
  lemma {:induction false} RunReplies(c: State, events: seq<Event>)
    requires c.listening
    ensures Run(c, events).listening <==> forall i :: 0 <= i < |events| ==> events[i].Subscribe?
    ensures |Run(c, events).replies| == |c.replies| + Handled(events)
    ensures Run(c, events).replies[..|c.replies|] == c.replies
    ensures forall i :: 0 <= i < Handled(events) ==> Run(c, events).replies[|c.replies| + i] == ReplyFor(events[i])
    decreases |events|
  {
    if |events| > 0 {
      var c' := Step(c, events[0]);
      var r := Run(c, events);
      if c'.listening {
        RunReplies(c', events[1..]);
        assert r.replies[..|c'.replies|] == c'.replies;
        assert r.replies[..|c.replies|] == r.replies[..|c'.replies|][..|c.replies|];
        forall i | 0 <= i < Handled(events) ensures r.replies[|c.replies| + i] == ReplyFor(events[i]) {
          if i == 0 {
            assert r.replies[|c.replies|] == r.replies[..|c'.replies|][|c.replies|];
          } else {
            assert events[1..][i - 1] == events[i];
          }
        }
        if forall i :: 0 <= i < |events| ==> events[i].Subscribe? {
          assert forall i :: 0 <= i < |events[1..]| ==> events[1..][i] == events[i + 1];
        }
        if forall i :: 0 <= i < |events[1..]| ==> events[1..][i].Subscribe? {
          forall i | 0 <= i < |events| ensures events[i].Subscribe? {
            if i > 0 {
              assert events[i] == events[1..][i - 1];
            }
          }
        }
      } else {
        RunAfterEnd(c', events[1..]);
      }
    }
  }

  /** A second `/subscribe` of a taken name keeps the first subscriber. */
  lemma SecondSubscriberIgnored(name: string, first: int, second: int)
    requires ' ' !in name
    ensures Collect([Subscribe("/subscribe " + name, first), Subscribe("/subscribe " + name, second)]).pending
      == map[name := first]
  {
    SubscribeNameOf("/subscribe", name, "");
    assert "/subscribe " + name == "/subscribe" + " " + name;
    var events := [Subscribe("/subscribe " + name, first), Subscribe("/subscribe " + name, second)];
    var c1 := Step(Initial, events[0]);
    assert c1.pending == map[name := first];
    assert Collect(events) == Run(c1, events[1..]);
    assert Run(c1, events[1..]) == Run(Step(c1, events[1]), []);
  }
}
