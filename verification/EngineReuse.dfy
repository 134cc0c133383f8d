/** The fake engine (benchmark/api_output_path/http_e2e.py) when ids come back: the contract of
    `EngineSafety`, counted from a request's latest arrival, over all runs in which no id arrives
    while it is still listed. */
module EngineReuse {
  import opened EngineListing
  import opened EngineSafety
  import opened FakeEngine
  import opened Wrappers

  // ---------------------------------------------------------------- the contract

  /** The loop indices sent to `id` since it arrived last. */
  function Sent(trace: seq<Event>, id: Id): seq<nat> {
    if trace == [] then []
    else
      match Last(trace)
      case Received(NewRequest(i)) => if i == id then [] else Sent(DropLast(trace), id)
      case Frame(rows) => Sent(DropLast(trace), id) + LoopsOf(rows, id)
      case _ => Sent(DropLast(trace), id)
  }

  /** A frame lists every live request once, in order of arrival, each with its next index. */
  ghost predicate FrameFits(c: Config, before: seq<Event>, rows: seq<Row>)
    requires c.Valid()
  {
    && rows != [] && Ids(rows) == Live(before) && Distinct(Live(before))
    && forall i :: 0 <= i < |rows| ==>
         rows[i].loop == |Sent(before, rows[i].id)| && rows[i].value == c.TokenAt(rows[i].loop, i)
  }

  /** A completion is of a live request that has been sent its quota. */
  ghost predicate EventFits(c: Config, before: seq<Event>, e: Event)
    requires c.Valid()
  {
    match e
    case Frame(rows) => FrameFits(c, before, rows)
    case Completed(id, chunks) => id in Live(before) && |Sent(before, id)| == c.Quota() && chunks == c.tokens
    case _ => true
  }

  ghost predicate EventsFit(c: Config, trace: seq<Event>)
    requires c.Valid()
  {
    forall t :: 0 <= t < |trace| ==> EventFits(c, trace[..t], trace[t])
  }

  /** The containers agree with the trace. */
  ghost predicate Listing(s: State) {
    && Distinct(s.order)
    && (forall id <- s.active :: id in s.order)
    && Keep(s.order, s.active.Keys) == Live(s.trace)
  }

  /** A live request has been sent 0, 1, 2, ... since it arrived, and less than its quota unless
      its completion is still to be checked. */
  ghost predicate Book(c: Config, s: State, id: Id, pending: set<Id>) {
    id in s.active ==>
      var sent := Sent(s.trace, id);
      && CountsUp(sent) && s.active[id] == |sent| <= c.Quota()
      && (|sent| == c.Quota() ==> id in pending)
  }

  ghost predicate Fits(c: Config, s: State, pending: set<Id>)
    requires c.Valid()
  {
    Listing(s) && EventsFit(c, s.trace) && forall id :: Book(c, s, id, pending)
  }

  // ---------------------------------------------------------------- event by event

  lemma OneMoreFits(c: Config, trace: seq<Event>, e: Event)
    requires c.Valid() && EventsFit(c, trace) && EventFits(c, trace, e)
    ensures EventsFit(c, trace + [e])
  {
    forall t | 0 <= t < |trace| + 1
      ensures EventFits(c, (trace + [e])[..t], (trace + [e])[t])
    {
      if t < |trace| {
        assert (trace + [e])[..t] == trace[..t];
      } else {
        assert (trace + [e])[..t] == trace;
      }
    }
  }

  lemma NeutralFits(c: Config, s: State, e: Event, pending: set<Id>)
    requires c.Valid() && Fits(c, s, pending)
    requires e.Ticked? || e.Removed? || (e.Received? && e.msg.ReadsDone?)
    ensures Fits(c, s.(trace := s.trace + [e]), pending)
  {
    Append(s.trace, e);
    OneMoreFits(c, s.trace, e);
    forall id
      ensures Book(c, s.(trace := s.trace + [e]), id, pending)
    {
      assert Book(c, s, id, pending);
    }
  }

  lemma NewFits(c: Config, s: State, id: Id)
    requires c.Valid() && Fits(c, s, {}) && id !in s.order
    ensures Fits(c, Receive(s, NewRequest(id)), {})
  {
    var e, t := Received(NewRequest(id)), Receive(s, NewRequest(id));
    Append(s.trace, e);
    OneMoreFits(c, s.trace, e);
    KeepIgnores(s.order, id, s.active.Keys);
    KeepAppend(s.order, id, t.active.Keys);
    assert t.active.Keys == s.active.Keys + {id};
    forall x
      ensures Book(c, t, x, {})
    {
      assert Book(c, s, x, {});
    }
  }

  lemma AbortFits(c: Config, s: State, id: Id)
    requires c.Valid() && Fits(c, s, {})
    ensures Fits(c, Receive(s, AbortRequest(id)), {})
  {
    var e, t := Received(AbortRequest(id)), Receive(s, AbortRequest(id));
    Append(s.trace, e);
    OneMoreFits(c, s.trace, e);
    assert t.active.Keys == s.active.Keys - {id};
    KeepWithout(s.order, id, s.active.Keys);
    forall x
      ensures Book(c, t, x, {})
    {
      assert Book(c, s, x, {});
    }
  }

  lemma {:induction false} MessagesFit(c: Config, s: State, msgs: seq<Message>)
    requires c.Valid() && Fits(c, s, {}) && NoneListed(s, msgs)
    ensures Fits(c, ReceiveAll(s, msgs), {})
  {
    if msgs != [] {
      MessagesFit(c, s, DropLast(msgs));
      var t := ReceiveAll(s, DropLast(msgs));
      match Last(msgs)
      case NewRequest(id) => NewFits(c, t, id);
      case AbortRequest(id) => AbortFits(c, t, id);
      case ReadsDone(id) =>
        NeutralFits(c, t, Received(Last(msgs)), {});
        NeutralFits(c, t.(trace := t.trace + [Received(Last(msgs))]), Removed(id), {});
    }
  }

  lemma StartTickFits(c: Config, s: State, now: real)
    requires c.Valid() && Fits(c, s, {})
    ensures Fits(c, StartTick(c, s, now), {}) && StartTick(c, s, now).order == Live(StartTick(c, s, now).trace)
  {
    var t := StartTick(c, s, now);
    NeutralFits(c, s, Ticked(now), {});
    Append(s.trace, Ticked(now));
    KeepTwice(s.order, s.active.Keys);
    KeepIsDistinct(s.order, s.active.Keys);
    forall id
      ensures Book(c, t, id, {})
    {
      assert Book(c, s.(trace := s.trace + [Ticked(now)]), id, {});
    }
  }

  /** The active table holds what was sent to each key, the live requests. */
  ghost predicate Counted(trace: seq<Event>, active: map<Id, nat>, keys: seq<Id>) {
    && keys != [] && keys == Live(trace) && Distinct(keys)
    && forall k <- keys :: k in active && active[k] == |Sent(trace, k)|
  }

  lemma LiveIsCounted(c: Config, s: State)
    requires c.Valid() && Fits(c, s, {}) && s.order == Live(s.trace) && s.order != []
    ensures Counted(s.trace, s.active, s.order)
  {
    forall k <- s.order
      ensures k in s.active && s.active[k] == |Sent(s.trace, k)|
    {
      assert Book(c, s, k, {});
    }
  }

  lemma EmittedFits(c: Config, trace: seq<Event>, active: map<Id, nat>, keys: seq<Id>)
    requires c.Valid() && Counted(trace, active, keys)
    ensures var (rows, after) := Emit(c, active, keys, |keys|);
            && FrameFits(c, trace, rows) && Ids(rows) == keys
            && (forall i :: 0 <= i < |rows| ==> rows[i].id in active && rows[i].loop == active[rows[i].id])
            && (forall k <- active :: after[k] == active[k] + if k in keys then 1 else 0)
  {
    EmitIsPointwise(c, active, keys);
    assert Ids(Emit(c, active, keys, |keys|).0) == keys;
  }

  lemma FrameListing(c: Config, s: State, t: State, rows: seq<Row>)
    requires c.Valid() && Listing(s) && EventsFit(c, s.trace) && FrameFits(c, s.trace, rows)
    requires t.trace == s.trace + [Frame(rows)] && t.active.Keys == s.active.Keys && t.order == s.order
    ensures Listing(t) && EventsFit(c, t.trace)
  {
    Append(s.trace, Frame(rows));
    OneMoreFits(c, s.trace, Frame(rows));
  }

  /** What a frame adds to what was sent to one request. */
  lemma FrameSends(trace: seq<Event>, rows: seq<Row>, active: map<Id, nat>, id: Id)
    requires Distinct(Ids(rows))
    requires forall i :: 0 <= i < |rows| ==> rows[i].id in active && rows[i].loop == active[rows[i].id]
    ensures id in Ids(rows) ==> id in active
    ensures Sent(trace + [Frame(rows)], id) == Sent(trace, id) + if id in Ids(rows) then [active[id]] else []
  {
    Append(trace, Frame(rows));
    FrameLoop(rows, active, id);
  }

  lemma FrameBook(c: Config, s: State, t: State, rows: seq<Row>, id: Id, pending: set<Id>)
    requires c.Valid() && Distinct(s.order) && Book(c, s, id, {})
    requires t.trace == s.trace + [Frame(rows)] && t.active.Keys == s.active.Keys
    requires Ids(rows) == s.order && pending == Elems(s.order)
    requires forall i :: 0 <= i < |rows| ==> rows[i].id in s.active && rows[i].loop == s.active[rows[i].id]
    requires forall k <- s.active :: t.active[k] == s.active[k] + if k in s.order then 1 else 0
    ensures Book(c, t, id, pending)
  {
    FrameSends(s.trace, rows, s.active, id);
  }

  lemma SendFrameFits(c: Config, s: State)
    requires c.Valid() && Fits(c, s, {}) && s.order == Live(s.trace) && s.order != []
    ensures var t := SendFrame(c, s, s.order);
            && Fits(c, t, Elems(s.order)) && t.active.Keys == s.active.Keys
            && (forall k <- s.order :: 0 < t.active[k])
  {
    var t, rows := SendFrame(c, s, s.order), Emit(c, s.active, s.order, |s.order|).0;
    LiveIsCounted(c, s);
    EmittedFits(c, s.trace, s.active, s.order);
    FrameListing(c, s, t, rows);
    forall id
      ensures Book(c, t, id, Elems(s.order))
    {
      assert Book(c, s, id, {});
      FrameBook(c, s, t, rows, id, Elems(s.order));
    }
  }

  lemma CompletionFits(c: Config, s: State, k: Id, pending: set<Id>)
    requires c.Valid() && Fits(c, s, pending) && k in s.active && 0 < s.active[k] && c.tokens <= s.active[k]
    requires !s.crashed
    ensures Listing(CompleteOne(c, s, k)) && EventsFit(c, CompleteOne(c, s, k).trace)
  {
    var e, t := Completed(k, c.tokens), CompleteOne(c, s, k);
    assert Book(c, s, k, pending);
    assert k in Keep(s.order, s.active.Keys);
    Append(s.trace, e);
    OneMoreFits(c, s.trace, e);
    assert t.active.Keys == s.active.Keys - {k};
    KeepWithout(s.order, k, s.active.Keys);
  }

  lemma CompleteOneFits(c: Config, s: State, k: Id, pending: set<Id>)
    requires c.Valid() && Fits(c, s, pending) && !s.crashed && k in s.active && 0 < s.active[k]
    ensures var t := CompleteOne(c, s, k);
            && Fits(c, t, pending - {k}) && !t.crashed
            && (forall x <- s.active :: x != k ==> x in t.active && t.active[x] == s.active[x])
  {
    var t := CompleteOne(c, s, k);
    if c.tokens <= s.active[k] {
      CompletionFits(c, s, k, pending);
    }
    Append(s.trace, Completed(k, c.tokens));
    assert Book(c, s, k, pending);
    forall x
      ensures Book(c, t, x, pending - {k})
    {
      assert Book(c, s, x, pending);
    }
  }

  lemma {:induction false} CompleteAllFits(c: Config, s: State, keys: seq<Id>, rest: seq<Id>)
    requires c.Valid() && Distinct(keys + rest) && !s.crashed
    requires Fits(c, s, Elems(keys + rest))
    requires forall k <- keys + rest :: k in s.active && 0 < s.active[k]
    ensures var t := CompleteAll(c, s, keys);
            && Fits(c, t, Elems(rest)) && !t.crashed
            && (forall k <- rest :: k in t.active && 0 < t.active[k])
    decreases |keys|
  {
    if keys == [] {
      assert keys + rest == rest;
    } else {
      var k, later := Last(keys), [Last(keys)] + rest;
      assert DropLast(keys) + later == keys + rest;
      CompleteAllFits(c, s, DropLast(keys), later);
      assert k !in rest by {
        assert forall i :: 0 <= i < |rest| ==> (keys + rest)[|keys| + i] == rest[i];
        assert (keys + rest)[|keys| - 1] == k;
      }
      assert Elems(later) - {k} == Elems(rest);
      CompleteOneFits(c, CompleteAll(c, s, DropLast(keys)), k, Elems(later));
    }
  }

  lemma TickFits(c: Config, s: State, now: real)
    requires c.Valid() && Fits(c, s, {}) && !s.crashed
    ensures Fits(c, Tick(c, s, now), {}) && !Tick(c, s, now).crashed
  {
    var t := StartTick(c, s, now);
    StartTickFits(c, s, now);
    if t.order != [] {
      SendFrameFits(c, t);
      assert t.order + [] == t.order;
      CompleteAllFits(c, SendFrame(c, t, t.order), t.order, []);
      assert Elems([]) == {};
    }
  }

  // ---------------------------------------------------------------- whole runs

  /** Over every run in which no id arrives while it is still listed: every frame lists the live
      requests once each in order of arrival, every request is sent 0, 1, 2, ... from its latest
      arrival on and completed exactly at its quota, and nothing crashes. */
  lemma {:induction false} ReuseKeepsContract(c: Config, now: real, turns: seq<Turn>)
    requires c.Valid() && NoneRelisted(c, Start(now), turns)
    ensures var s := Run(c, Start(now), turns);
            Fits(c, s, {}) && !s.crashed
  {
    if turns == [] {
      assert forall id :: Book(c, Start(now), id, {});
    } else {
      ReuseKeepsContract(c, now, DropLast(turns));
      var s, turn := Run(c, Start(now), DropLast(turns)), Last(turns);
      MessagesFit(c, s, turn.msgs);
      ReceivingIsAlive(s, turn.msgs);
      var t := ReceiveAll(s, turn.msgs);
      if t.tNext <= turn.now {
        TickFits(c, t, turn.now);
      }
    }
  }

  /** Distinct ids are the special case: none can arrive while listed. */
  lemma {:induction false} DistinctIsNoneRelisted(c: Config, now: real, turns: seq<Turn>)
    requires c.Valid() && Distinct(NewIds(turns))
    ensures NoneRelisted(c, Start(now), turns)
  {
    if turns != [] {
      var before, msgs := DropLast(turns), Last(turns).msgs;
      assert NewIds(turns)[..|NewIds(before)|] == NewIds(before);
      DistinctIsNoneRelisted(c, now, before);
      EveryRunIsGood(c, now, before);
      DistinctIsNoneListed(c, Run(c, Start(now), before), msgs);
    }
  }

  lemma {:induction false} DistinctIsNoneListed(c: Config, s: State, msgs: seq<Message>)
    requires c.Valid() && Good(c, s, {}) && Distinct(Arrivals(s.trace) + NewIdsOf(msgs))
    ensures NoneListed(s, msgs)
  {
    if msgs != [] {
      var m, seen := Last(msgs), Arrivals(s.trace) + NewIdsOf(DropLast(msgs));
      var all := Arrivals(s.trace) + NewIdsOf(msgs);
      assert all == seen + if m.NewRequest? then [m.id] else [];
      assert Distinct(seen) && (m.NewRequest? ==> m.id !in seen) by {
        assert all[..|seen|] == seen;
        assert m.NewRequest? ==> all[|seen|] == m.id;
      }
      DistinctIsNoneListed(c, s, DropLast(msgs));
      ReceiveAllKeepsGood(c, s, DropLast(msgs));
    }
  }
}
