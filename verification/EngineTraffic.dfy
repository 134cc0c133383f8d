/** What the fake engine (benchmark/api_output_path/http_e2e.py) answers, and when: every message
    is handled, every tick with live requests sends a frame at once, and the counts it prints at
    the end are those of its frames. */
module EngineTraffic {
  import opened EngineListing
  import opened EngineReuse
  import opened EngineSafety
  import opened FakeEngine
  import opened Wrappers

  // ---------------------------------------------------------------- counts and messages, over any run

  function FramesIn(trace: seq<Event>): nat {
    if trace == [] then 0 else FramesIn(DropLast(trace)) + if Last(trace).Frame? then 1 else 0
  }

  function RowsIn(trace: seq<Event>): nat {
    if trace == [] then 0 else RowsIn(DropLast(trace)) + if Last(trace).Frame? then |Last(trace).rows| else 0
  }

  /** The messages received. */
  function Inbox(trace: seq<Event>): seq<Message> {
    if trace == [] then []
    else Inbox(DropLast(trace)) + if Last(trace).Received? then [Last(trace).msg] else []
  }

  function AllMessages(turns: seq<Turn>): seq<Message> {
    if turns == [] then [] else AllMessages(DropLast(turns)) + Last(turns).msgs
  }

  lemma CountEvent(trace: seq<Event>, e: Event)
    ensures FramesIn(trace + [e]) == FramesIn(trace) + if e.Frame? then 1 else 0
    ensures RowsIn(trace + [e]) == RowsIn(trace) + if e.Frame? then |e.rows| else 0
    ensures Inbox(trace + [e]) == Inbox(trace) + if e.Received? then [e.msg] else []
  {
    Append(trace, e);
  }

  /** The engine's counters agree with what it sent. */
  ghost predicate Counts(s: State) {
    s.steps == FramesIn(s.trace) && s.rowsTotal == RowsIn(s.trace)
  }

  lemma {:induction false} ReceivingCounts(s: State, msgs: seq<Message>)
    requires Counts(s)
    ensures Counts(ReceiveAll(s, msgs)) && Inbox(ReceiveAll(s, msgs).trace) == Inbox(s.trace) + msgs
  {
    if msgs != [] {
      ReceivingCounts(s, DropLast(msgs));
      var t, m := ReceiveAll(s, DropLast(msgs)), Last(msgs);
      CountEvent(t.trace, Received(m));
      if m.ReadsDone? {
        CountEvent(t.trace + [Received(m)], Removed(m.id));
      }
      Snoc(msgs);
      Associate(Inbox(s.trace), DropLast(msgs), [m]);
    }
  }

  lemma {:induction false} CompletingCounts(c: Config, s: State, keys: seq<Id>)
    requires Counts(s)
    ensures Counts(CompleteAll(c, s, keys)) && Inbox(CompleteAll(c, s, keys).trace) == Inbox(s.trace)
  {
    if keys != [] {
      CompletingCounts(c, s, DropLast(keys));
      CountEvent(CompleteAll(c, s, DropLast(keys)).trace, Completed(Last(keys), c.tokens));
    }
  }

  lemma TickCounts(c: Config, s: State, now: real)
    requires c.Valid() && Counts(s)
    ensures Counts(Tick(c, s, now)) && Inbox(Tick(c, s, now).trace) == Inbox(s.trace)
  {
    var t := StartTick(c, s, now);
    CountEvent(s.trace, Ticked(now));
    if t.order != [] {
      CountEvent(t.trace, Frame(Emit(c, t.active, t.order, |t.order|).0));
      CompletingCounts(c, SendFrame(c, t, t.order), t.order);
    }
  }

  /** Over any run: the steps and rows counted are those of the frames sent, and unless the engine
      died every message has been taken, in order. */
  lemma {:induction false} EveryRunCounts(c: Config, now: real, turns: seq<Turn>)
    requires c.Valid()
    ensures var s := Run(c, Start(now), turns);
            && s.steps == FramesIn(s.trace) && s.rowsTotal == RowsIn(s.trace)
            && (!s.crashed ==> Inbox(s.trace) == AllMessages(turns))
  {
    if turns != [] {
      EveryRunCounts(c, now, DropLast(turns));
      var s, turn := Run(c, Start(now), DropLast(turns)), Last(turns);
      if !s.crashed {
        ReceivingCounts(s, turn.msgs);
        var t := ReceiveAll(s, turn.msgs);
        if t.tNext <= turn.now {
          TickCounts(c, t, turn.now);
        }
      }
    }
  }

  // ---------------------------------------------------------------- answers

  /** What comes right after event `t`: after a tick a frame, iff a request is live; after a
      finished read its removal; and neither anywhere else. */
  ghost predicate Answered(trace: seq<Event>, t: nat)
    requires t < |trace|
  {
    var frame, removal := t + 1 < |trace| && trace[t + 1].Frame?, t + 1 < |trace| && trace[t + 1].Removed?;
    && (frame <==> trace[t].Ticked? && Live(trace[..t]) != [])
    && (removal <==> trace[t].Received? && trace[t].msg.ReadsDone?)
    && (removal ==> trace[t + 1].id == trace[t].msg.id)
  }

  ghost predicate AllAnswered(trace: seq<Event>) {
    && (trace != [] ==> !trace[0].Frame? && !trace[0].Removed?)
    && forall t :: 0 <= t < |trace| ==> Answered(trace, t)
  }

  /** The event asks for an answer. */
  ghost predicate Asks(trace: seq<Event>, e: Event) {
    (e.Ticked? && Live(trace) != []) || (e.Received? && e.msg.ReadsDone?)
  }

  lemma AnswerStays(trace: seq<Event>, more: seq<Event>, t: nat)
    requires t + 1 < |trace| && Answered(trace, t)
    ensures Answered(trace + more, t)
  {
    var all := trace + more;
    assert all[t] == trace[t] && all[t + 1] == trace[t + 1] && all[..t] == trace[..t];
  }

  /** One more event that neither asks nor answers. */
  lemma AppendQuiet(trace: seq<Event>, e: Event)
    requires AllAnswered(trace) && !e.Frame? && !e.Removed? && !Asks(trace, e)
    ensures AllAnswered(trace + [e])
  {
    var all, n := trace + [e], |trace|;
    forall t | 0 <= t < n + 1
      ensures Answered(all, t)
    {
      if t + 1 < n {
        AnswerStays(trace, [e], t);
      } else if t + 1 == n {
        assert Answered(trace, t);
        assert all[t] == trace[t] && all[..t] == trace[..t];
      } else {
        assert all[..n] == trace;
      }
    }
  }

  /** An event and its answer. */
  lemma AppendAnswer(trace: seq<Event>, e: Event, answer: Event)
    requires AllAnswered(trace) && !e.Frame? && !e.Removed?
    requires (e.Ticked? && Live(trace) != [] && answer.Frame?)
          || (e.Received? && e.msg.ReadsDone? && answer == Removed(e.msg.id))
    ensures AllAnswered(trace + [e] + [answer])
  {
    var all, n := trace + [e] + [answer], |trace|;
    forall t | 0 <= t < n + 2
      ensures Answered(all, t)
    {
      if t + 1 < n {
        AnswerStays(trace, [e] + [answer], t);
        Associate(trace, [e], [answer]);
      } else if t + 1 == n {
        assert Answered(trace, t);
        assert all[t] == trace[t] && all[..t] == trace[..t];
      } else if t == n {
        assert all[..n] == trace;
      }
    }
  }

  lemma {:induction false} ReceivingAnswers(s: State, msgs: seq<Message>)
    requires AllAnswered(s.trace)
    ensures AllAnswered(ReceiveAll(s, msgs).trace)
  {
    if msgs != [] {
      ReceivingAnswers(s, DropLast(msgs));
      var t, m := ReceiveAll(s, DropLast(msgs)), Last(msgs);
      if m.ReadsDone? {
        AppendAnswer(t.trace, Received(m), Removed(m.id));
      } else {
        AppendQuiet(t.trace, Received(m));
      }
    }
  }

  lemma {:induction false} CompletingAnswers(c: Config, s: State, keys: seq<Id>)
    requires AllAnswered(s.trace)
    ensures AllAnswered(CompleteAll(c, s, keys).trace)
  {
    if keys != [] {
      CompletingAnswers(c, s, DropLast(keys));
      AppendQuiet(CompleteAll(c, s, DropLast(keys)).trace, Completed(Last(keys), c.tokens));
    }
  }

  lemma TickAnswers(c: Config, s: State, now: real)
    requires c.Valid() && Fits(c, s, {}) && AllAnswered(s.trace)
    ensures AllAnswered(Tick(c, s, now).trace)
  {
    var t := StartTick(c, s, now);
    assert t.order == Live(s.trace);
    if t.order == [] {
      AppendQuiet(s.trace, Ticked(now));
    } else {
      AppendAnswer(s.trace, Ticked(now), Frame(Emit(c, t.active, t.order, |t.order|).0));
      CompletingAnswers(c, SendFrame(c, t, t.order), t.order);
    }
  }

  /** Over every run in which no id arrives while it is still listed: each tick with live requests is
      answered by a frame at once, each finished read by its removal, and nothing else sends either. */
  lemma {:induction false} EveryRunAnswers(c: Config, now: real, turns: seq<Turn>)
    requires c.Valid() && NoneRelisted(c, Start(now), turns)
    ensures AllAnswered(Run(c, Start(now), turns).trace)
  {
    if turns != [] {
      EveryRunAnswers(c, now, DropLast(turns));
      ReuseKeepsContract(c, now, DropLast(turns));
      var s, turn := Run(c, Start(now), DropLast(turns)), Last(turns);
      ReceivingAnswers(s, turn.msgs);
      MessagesFit(c, s, turn.msgs);
      var t := ReceiveAll(s, turn.msgs);
      if t.tNext <= turn.now {
        TickAnswers(c, t, turn.now);
      }
    }
  }
}
