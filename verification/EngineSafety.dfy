/** Safety of the fake engine's batching (benchmark/api_output_path/http_e2e.py) over whole
    runs, stated on the trace of what it received and sent. */
module EngineSafety {
  import opened FakeEngine
  import opened Wrappers

  // ---------------------------------------------------------------- reading a trace

  ghost predicate Distinct(s: seq<Id>) {
    forall i, j :: 0 <= i < j < |s| ==> s[i] != s[j]
  }

  function Elems(s: seq<Id>): (e: set<Id>)
    ensures forall x :: x in e <==> x in s
  {
    set x | x in s
  }

  function Without(s: seq<Id>, x: Id): (r: seq<Id>)
    ensures forall y :: y in r <==> y in s && y != x
  {
    if s == [] then []
    else
      assert s == DropLast(s) + [Last(s)];
      if Last(s) == x then Without(DropLast(s), x) else Without(DropLast(s), x) + [Last(s)]
  }

  /** The requests that have arrived, in order. */
  function Arrivals(trace: seq<Event>): seq<Id> {
    if trace == [] then []
    else
      match Last(trace)
      case Received(NewRequest(id)) => Arrivals(DropLast(trace)) + [id]
      case _ => Arrivals(DropLast(trace))
  }

  /** The requests that have arrived and were neither aborted since nor completed, in order
      of arrival: a reference definition that knows nothing of the engine's two containers. */
  function Live(trace: seq<Event>): seq<Id> {
    if trace == [] then []
    else
      var live := Live(DropLast(trace));
      match Last(trace)
      case Received(NewRequest(id)) => live + [id]
      case Received(AbortRequest(id)) => Without(live, id)
      case Completed(id, _) => Without(live, id)
      case _ => live
  }

  function LoopsOf(rows: seq<Row>, id: Id): seq<nat> {
    if rows == [] then []
    else LoopsOf(DropLast(rows), id) + if Last(rows).id == id then [Last(rows).loop] else []
  }

  /** The loop indices request `id` has been sent, over all frames. */
  function Loops(trace: seq<Event>, id: Id): seq<nat> {
    if trace == [] then []
    else
      match Last(trace)
      case Frame(rows) => Loops(DropLast(trace), id) + LoopsOf(rows, id)
      case _ => Loops(DropLast(trace), id)
  }

  function Completions(trace: seq<Event>, id: Id): nat {
    if trace == [] then 0
    else
      match Last(trace)
      case Completed(i, _) => Completions(DropLast(trace), id) + if i == id then 1 else 0
      case _ => Completions(DropLast(trace), id)
  }

  function Ids(rows: seq<Row>): (ids: seq<Id>)
    ensures |ids| == |rows| && forall i :: 0 <= i < |rows| ==> ids[i] == rows[i].id
  {
    seq(|rows|, i requires 0 <= i < |rows| => rows[i].id)
  }

  /** 0, 1, 2, ... with no gap and no repeat. */
  ghost predicate CountsUp(s: seq<nat>) {
    forall i :: 0 <= i < |s| ==> s[i] == i
  }

  // ---------------------------------------------------------------- what a trace must satisfy

  /** A frame lists every live request once, in arrival order, each with its next index. */
  ghost predicate FrameOk(c: Config, before: seq<Event>, rows: seq<Row>)
    requires c.Valid()
  {
    && rows != [] && Ids(rows) == Live(before)
    && forall i :: 0 <= i < |rows| ==>
         && rows[i].loop == |Loops(before, rows[i].id)|
         && rows[i].value == c.TokenAt(rows[i].loop, i)
  }

  /** A completion is of a live request that has been sent exactly its quota. */
  ghost predicate CompletionOk(c: Config, before: seq<Event>, id: Id, chunks: int) {
    id in Live(before) && |Loops(before, id)| == c.Quota() && chunks == c.tokens
  }

  ghost predicate EventOk(c: Config, before: seq<Event>, e: Event)
    requires c.Valid()
  {
    match e
    case Frame(rows) => FrameOk(c, before, rows)
    case Completed(id, chunks) => CompletionOk(c, before, id, chunks)
    case _ => true
  }

  ghost predicate EventsOk(c: Config, trace: seq<Event>)
    requires c.Valid()
  {
    forall t :: 0 <= t < |trace| ==> EventOk(c, trace[..t], trace[t])
  }

  /** The containers agree with the trace. */
  ghost predicate Shape(s: State) {
    && !s.crashed && Distinct(s.order)
    && (forall id <- s.order :: id in Arrivals(s.trace))
    && (forall id <- s.active :: id in s.order)
    && Keep(s.order, s.active.Keys) == Live(s.trace)
  }

  /** The books of one request; `pending` are those whose completion is still to be checked. */
  ghost predicate Account(c: Config, s: State, id: Id, pending: set<Id>) {
    var sent := Loops(s.trace, id);
    && CountsUp(sent) && |sent| <= c.Quota()
    && (id !in Arrivals(s.trace) ==> sent == [])
    && (id in s.active ==> s.active[id] == |sent| && (|sent| == c.Quota() ==> id in pending))
    && Completions(s.trace, id) == if id !in s.active && |sent| == c.Quota() then 1 else 0
  }

  ghost predicate Good(c: Config, s: State, pending: set<Id>)
    requires c.Valid()
  {
    Shape(s) && EventsOk(c, s.trace) && forall id :: Account(c, s, id, pending)
  }

  // ---------------------------------------------------------------- appending one event

  lemma Append(trace: seq<Event>, e: Event)
    ensures DropLast(trace + [e]) == trace && Last(trace + [e]) == e
  {
  }

  lemma AppendEvent(c: Config, trace: seq<Event>, e: Event)
    requires c.Valid() && EventsOk(c, trace) && EventOk(c, trace, e)
    ensures EventsOk(c, trace + [e])
  {
    forall t | 0 <= t < |trace| + 1
      ensures EventOk(c, (trace + [e])[..t], (trace + [e])[t])
    {
      if t < |trace| {
        assert (trace + [e])[..t] == trace[..t];
      } else {
        assert (trace + [e])[..t] == trace;
      }
    }
  }

  /** An event that says nothing about requests changes no book. */
  lemma AppendNeutral(c: Config, s: State, e: Event, pending: set<Id>)
    requires c.Valid() && Good(c, s, pending)
    requires e.Ticked? || e.Removed? || (e.Received? && e.msg.ReadsDone?)
    ensures Good(c, s.(trace := s.trace + [e]), pending)
    ensures Arrivals(s.trace + [e]) == Arrivals(s.trace)
  {
    Append(s.trace, e);
    AppendEvent(c, s.trace, e);
    forall id
      ensures Account(c, s.(trace := s.trace + [e]), id, pending)
    {
      assert Account(c, s, id, pending);
    }
  }

  // ---------------------------------------------------------------- filtering

  lemma KeepAppend(s: seq<Id>, x: Id, keep: set<Id>)
    ensures Keep(s + [x], keep) == Keep(s, keep) + if x in keep then [x] else []
  {
    assert DropLast(s + [x]) == s;
  }

  lemma {:induction false} KeepIgnores(s: seq<Id>, x: Id, keep: set<Id>)
    requires x !in s
    ensures Keep(s, keep + {x}) == Keep(s, keep)
  {
    if s != [] {
      assert s == DropLast(s) + [Last(s)];
      KeepIgnores(DropLast(s), x, keep);
    }
  }

  lemma {:induction false} KeepWithout(s: seq<Id>, x: Id, keep: set<Id>)
    ensures Keep(s, keep - {x}) == Without(Keep(s, keep), x)
  {
    if s != [] {
      KeepWithout(DropLast(s), x, keep);
      if Last(s) in keep {
        assert DropLast(Keep(s, keep)) == Keep(DropLast(s), keep);
      }
    }
  }

  lemma {:induction false} KeepTwice(s: seq<Id>, keep: set<Id>)
    ensures Keep(Keep(s, keep), keep) == Keep(s, keep)
  {
    if s != [] {
      KeepTwice(DropLast(s), keep);
      if Last(s) in keep {
        KeepAppend(Keep(DropLast(s), keep), Last(s), keep);
      }
    }
  }

  lemma {:induction false} KeepIsDistinct(s: seq<Id>, keep: set<Id>)
    requires Distinct(s)
    ensures Distinct(Keep(s, keep))
  {
    if s != [] {
      KeepIsDistinct(DropLast(s), keep);
      assert Last(s) !in DropLast(s);
    }
  }

  // ---------------------------------------------------------------- receiving

  lemma NewKeepsGood(c: Config, s: State, id: Id)
    requires c.Valid() && Good(c, s, {}) && id !in Arrivals(s.trace)
    ensures Good(c, Receive(s, NewRequest(id)), {})
    ensures Arrivals(Receive(s, NewRequest(id)).trace) == Arrivals(s.trace) + [id]
  {
    var e, t := Received(NewRequest(id)), Receive(s, NewRequest(id));
    Append(s.trace, e);
    AppendEvent(c, s.trace, e);
    assert id !in s.order;
    KeepIgnores(s.order, id, s.active.Keys);
    KeepAppend(s.order, id, t.active.Keys);
    assert t.active.Keys == s.active.Keys + {id};
    forall x
      ensures Account(c, t, x, {})
    {
      assert Account(c, s, x, {});
    }
  }

  lemma AbortKeepsGood(c: Config, s: State, id: Id)
    requires c.Valid() && Good(c, s, {})
    ensures Good(c, Receive(s, AbortRequest(id)), {})
    ensures Arrivals(Receive(s, AbortRequest(id)).trace) == Arrivals(s.trace)
  {
    var e, t := Received(AbortRequest(id)), Receive(s, AbortRequest(id));
    Append(s.trace, e);
    AppendEvent(c, s.trace, e);
    assert t.active.Keys == s.active.Keys - {id};
    KeepWithout(s.order, id, s.active.Keys);
    forall x
      ensures Account(c, t, x, {})
    {
      assert Account(c, s, x, {});
    }
  }

  lemma ReceiveKeepsGood(c: Config, s: State, m: Message)
    requires c.Valid() && Good(c, s, {}) && (m.NewRequest? ==> m.id !in Arrivals(s.trace))
    ensures Good(c, Receive(s, m), {})
    ensures Arrivals(Receive(s, m).trace) == Arrivals(s.trace) + if m.NewRequest? then [m.id] else []
  {
    match m
    case NewRequest(id) => NewKeepsGood(c, s, id);
    case AbortRequest(id) => AbortKeepsGood(c, s, id);
    case ReadsDone(id) =>
      AppendNeutral(c, s, Received(m), {});
      AppendNeutral(c, s.(trace := s.trace + [Received(m)]), Removed(id), {});
  }

  function NewIdsOf(msgs: seq<Message>): seq<Id> {
    if msgs == [] then []
    else NewIdsOf(DropLast(msgs)) + if Last(msgs).NewRequest? then [Last(msgs).id] else []
  }

  lemma {:induction false} ReceiveAllKeepsGood(c: Config, s: State, msgs: seq<Message>)
    requires c.Valid() && Good(c, s, {}) && Distinct(Arrivals(s.trace) + NewIdsOf(msgs))
    ensures Good(c, ReceiveAll(s, msgs), {})
    ensures Arrivals(ReceiveAll(s, msgs).trace) == Arrivals(s.trace) + NewIdsOf(msgs)
  {
    if msgs != [] {
      var m, seen := Last(msgs), Arrivals(s.trace) + NewIdsOf(DropLast(msgs));
      var all := Arrivals(s.trace) + NewIdsOf(msgs);
      assert all == seen + if m.NewRequest? then [m.id] else [];
      assert Distinct(seen) && (m.NewRequest? ==> m.id !in seen) by {
        assert all[..|seen|] == seen;
        assert m.NewRequest? ==> all[|seen|] == m.id;
      }
      ReceiveAllKeepsGood(c, s, DropLast(msgs));
      ReceiveKeepsGood(c, ReceiveAll(s, DropLast(msgs)), m);
    }
  }

  // ---------------------------------------------------------------- a frame

  lemma StartTickKeepsGood(c: Config, s: State, now: real)
    requires c.Valid() && Good(c, s, {})
    ensures var t := StartTick(c, s, now);
            && Good(c, t, {}) && t.order == Live(t.trace) && t.active == s.active
            && Arrivals(t.trace) == Arrivals(s.trace)
  {
    var t := StartTick(c, s, now);
    AppendNeutral(c, s, Ticked(now), {});
    Append(s.trace, Ticked(now));
    KeepTwice(s.order, s.active.Keys);
    KeepIsDistinct(s.order, s.active.Keys);
    forall id
      ensures Account(c, t, id, {})
    {
      assert Account(c, s.(trace := s.trace + [Ticked(now)]), id, {});
    }
  }

  lemma OneMoreKey(keys: seq<Id>, n: nat, k: Id)
    requires 0 < n <= |keys| && Distinct(keys)
    ensures k in keys[..n] <==> k in keys[..n - 1] || k == keys[n - 1]
    ensures keys[n - 1] !in keys[..n - 1]
  {
    assert keys[..n] == keys[..n - 1] + [keys[n - 1]];
  }

  /** With distinct keys every row carries the index its request had before the frame, and
      each listed request moves on by one. */
  lemma {:induction false} EmittedIndex(c: Config, active: map<Id, nat>, keys: seq<Id>, n: nat, k: Id)
    requires c.Valid() && n <= |keys| && Distinct(keys) && (forall k <- keys :: k in active) && k in active
    ensures Emit(c, active, keys, n).1[k] == active[k] + if k in keys[..n] then 1 else 0
  {
    if n > 0 {
      EmittedIndex(c, active, keys, n - 1, k);
      OneMoreKey(keys, n, k);
    }
  }

  lemma {:induction false} EmittedRow(c: Config, active: map<Id, nat>, keys: seq<Id>, n: nat, i: nat)
    requires c.Valid() && i < n <= |keys| && Distinct(keys) && forall k <- keys :: k in active
    ensures Emit(c, active, keys, n).0[i] == Row(keys[i], c.TokenAt(active[keys[i]], i), active[keys[i]])
  {
    if i == n - 1 {
      EmittedIndex(c, active, keys, i, keys[i]);
      OneMoreKey(keys, n, keys[i]);
    } else {
      EmittedRow(c, active, keys, n - 1, i);
    }
  }

  lemma EmitIsPointwise(c: Config, active: map<Id, nat>, keys: seq<Id>)
    requires c.Valid() && Distinct(keys) && forall k <- keys :: k in active
    ensures var (rows, after) := Emit(c, active, keys, |keys|);
            && (forall i :: 0 <= i < |keys| ==>
                  rows[i] == Row(keys[i], c.TokenAt(active[keys[i]], i), active[keys[i]]))
            && (forall k <- active :: after[k] == active[k] + if k in keys then 1 else 0)
  {
    var (rows, after) := Emit(c, active, keys, |keys|);
    forall i | 0 <= i < |keys|
      ensures rows[i] == Row(keys[i], c.TokenAt(active[keys[i]], i), active[keys[i]])
    {
      EmittedRow(c, active, keys, |keys|, i);
    }
    forall k <- active
      ensures after[k] == active[k] + if k in keys then 1 else 0
    {
      EmittedIndex(c, active, keys, |keys|, k);
      assert keys[..|keys|] == keys;
    }
  }

  lemma {:induction false} LoopsOfDistinct(rows: seq<Row>, id: Id)
    requires Distinct(Ids(rows))
    ensures id !in Ids(rows) ==> LoopsOf(rows, id) == []
    ensures forall i :: 0 <= i < |rows| && rows[i].id == id ==> LoopsOf(rows, id) == [rows[i].loop]
  {
    if rows != [] {
      var rest := DropLast(rows);
      assert Ids(rest) == DropLast(Ids(rows));
      LoopsOfDistinct(rest, id);
      assert Last(rows).id == Last(Ids(rows)) && Last(rows).id !in Ids(rest);
      if Last(rows).id == id {
        assert LoopsOf(rest, id) == [];
        assert forall i :: 0 <= i < |rest| ==> rows[i].id == Ids(rest)[i] != id;
      } else {
        assert forall i :: 0 <= i < |rows| && rows[i].id == id ==> i < |rest| && rest[i] == rows[i];
      }
    }
  }

  /** The books of the live requests are what their rows will carry. */
  ghost predicate Booked(trace: seq<Event>, active: map<Id, nat>, keys: seq<Id>) {
    && keys != [] && keys == Live(trace) && Distinct(keys)
    && forall k <- keys :: k in active && active[k] == |Loops(trace, k)|
  }

  lemma LiveIsBooked(c: Config, s: State)
    requires c.Valid() && Good(c, s, {}) && s.order == Live(s.trace) && s.order != []
    requires forall k <- s.order :: k in s.active
    ensures Booked(s.trace, s.active, s.order)
  {
    forall k <- s.order
      ensures s.active[k] == |Loops(s.trace, k)|
    {
      assert Account(c, s, k, {});
    }
  }

  lemma FrameIsOk(c: Config, trace: seq<Event>, active: map<Id, nat>, keys: seq<Id>)
    requires c.Valid() && Booked(trace, active, keys)
    ensures var (rows, after) := Emit(c, active, keys, |keys|);
            && FrameOk(c, trace, rows) && Ids(rows) == keys
            && (forall i :: 0 <= i < |rows| ==> rows[i].id in active && rows[i].loop == active[rows[i].id])
            && (forall k <- active :: after[k] == active[k] + if k in keys then 1 else 0)
  {
    EmitIsPointwise(c, active, keys);
    assert keys[..|keys|] == keys;
    assert Ids(Emit(c, active, keys, |keys|).0) == keys;
  }

  lemma SendFrameShape(c: Config, s: State)
    requires c.Valid() && Shape(s) && EventsOk(c, s.trace) && Booked(s.trace, s.active, s.order)
    ensures var t := SendFrame(c, s, s.order);
            && Shape(t) && EventsOk(c, t.trace)
            && t.order == s.order && t.active.Keys == s.active.Keys
            && Arrivals(t.trace) == Arrivals(s.trace)
            && (forall k <- s.order :: 0 < t.active[k])
  {
    var (rows, after) := Emit(c, s.active, s.order, |s.order|);
    FrameIsOk(c, s.trace, s.active, s.order);
    FrameShape(c, s, SendFrame(c, s, s.order), rows);
    forall k <- s.order
      ensures 0 < SendFrame(c, s, s.order).active[k]
    {
      assert after[k] == s.active[k] + 1;
    }
  }

  lemma FrameShape(c: Config, s: State, t: State, rows: seq<Row>)
    requires c.Valid() && Shape(s) && EventsOk(c, s.trace) && FrameOk(c, s.trace, rows)
    requires t.trace == s.trace + [Frame(rows)] && t.active.Keys == s.active.Keys
    requires t.order == s.order && t.crashed == s.crashed
    ensures Shape(t) && EventsOk(c, t.trace) && Arrivals(t.trace) == Arrivals(s.trace)
  {
    Append(s.trace, Frame(rows));
    AppendEvent(c, s.trace, Frame(rows));
  }

  /** The frame itself: what it lists, and one more index in the book of each key. */
  lemma SendFrameKeepsGood(c: Config, s: State)
    requires c.Valid() && Good(c, s, {}) && s.order == Live(s.trace) && s.order != []
    requires forall k <- s.order :: k in s.active
    ensures var t := SendFrame(c, s, s.order);
            && Good(c, t, Elems(s.order)) && t.order == s.order && t.active.Keys == s.active.Keys
            && Arrivals(t.trace) == Arrivals(s.trace)
            && (forall k <- s.order :: 0 < t.active[k])
  {
    LiveIsBooked(c, s);
    SendFrameShape(c, s);
    forall id
      ensures Account(c, SendFrame(c, s, s.order), id, Elems(s.order))
    {
      assert Account(c, s, id, {});
      FrameIsOk(c, s.trace, s.active, s.order);
      FrameAccount(c, s, SendFrame(c, s, s.order), Emit(c, s.active, s.order, |s.order|).0, id, Elems(s.order));
    }
  }

  lemma FrameAccount(c: Config, s: State, t: State, rows: seq<Row>, id: Id, pending: set<Id>)
    requires c.Valid() && Shape(s) && Account(c, s, id, {})
    requires t.trace == s.trace + [Frame(rows)] && t.active.Keys == s.active.Keys
    requires Ids(rows) == s.order && pending == Elems(s.order)
    requires forall i :: 0 <= i < |rows| ==> rows[i].id in s.active && rows[i].loop == s.active[rows[i].id]
    requires forall k <- s.active :: t.active[k] == s.active[k] + if k in s.order then 1 else 0
    ensures Account(c, t, id, pending)
  {
    FrameBooks(s.trace, rows, s.active, id);
  }

  /** What a frame adds to the books of one request. */
  lemma FrameBooks(trace: seq<Event>, rows: seq<Row>, active: map<Id, nat>, id: Id)
    requires Distinct(Ids(rows))
    requires forall i :: 0 <= i < |rows| ==> rows[i].id in active && rows[i].loop == active[rows[i].id]
    ensures id in Ids(rows) ==> id in active
    ensures var longer := trace + [Frame(rows)];
            && Loops(longer, id) == Loops(trace, id) + (if id in Ids(rows) then [active[id]] else [])
            && Completions(longer, id) == Completions(trace, id) && Arrivals(longer) == Arrivals(trace)
  {
    Append(trace, Frame(rows));
    FrameLoop(rows, active, id);
  }

  /** What a frame carries of one request. */
  lemma FrameLoop(rows: seq<Row>, active: map<Id, nat>, id: Id)
    requires Distinct(Ids(rows))
    requires forall i :: 0 <= i < |rows| ==> rows[i].id in active && rows[i].loop == active[rows[i].id]
    ensures id in Ids(rows) ==> id in active
    ensures LoopsOf(rows, id) == if id in Ids(rows) then [active[id]] else []
  {
    LoopsOfDistinct(rows, id);
    if id in Ids(rows) {
      var i :| 0 <= i < |rows| && Ids(rows)[i] == id;
    }
  }

  // ---------------------------------------------------------------- completing

  lemma CompleteOneKeepsGood(c: Config, s: State, k: Id, pending: set<Id>)
    requires c.Valid() && Good(c, s, pending) && k in s.active && 0 < s.active[k]
    ensures var t := CompleteOne(c, s, k);
            && Good(c, t, pending - {k}) && Arrivals(t.trace) == Arrivals(s.trace)
            && (forall x <- s.active :: x != k ==> x in t.active && t.active[x] == s.active[x])
  {
    var t := CompleteOne(c, s, k);
    assert Account(c, s, k, pending);
    if s.active[k] >= c.tokens {
      var e := Completed(k, c.tokens);
      CompletedShape(c, s, t, k);
    }
    forall x
      ensures Account(c, t, x, pending - {k})
    {
      CompletedAccount(c, s, k, pending, x);
    }
  }

  lemma CompletedShape(c: Config, s: State, t: State, k: Id)
    requires c.Valid() && Shape(s) && EventsOk(c, s.trace) && k in s.active
    requires t == s.(active := s.active - {k}, trace := s.trace + [Completed(k, c.tokens)])
    requires |Loops(s.trace, k)| == c.Quota()
    ensures Shape(t) && EventsOk(c, t.trace) && Arrivals(t.trace) == Arrivals(s.trace)
  {
    var e := Completed(k, c.tokens);
    Append(s.trace, e);
    assert k in Keep(s.order, s.active.Keys);
    AppendEvent(c, s.trace, e);
    assert t.active.Keys == s.active.Keys - {k};
    KeepWithout(s.order, k, s.active.Keys);
  }

  lemma CompletedAccount(c: Config, s: State, k: Id, pending: set<Id>, x: Id)
    requires c.Valid() && !s.crashed && Account(c, s, k, pending) && Account(c, s, x, pending)
    requires k in s.active && 0 < s.active[k]
    ensures Account(c, CompleteOne(c, s, k), x, pending - {k})
  {
    Append(s.trace, Completed(k, c.tokens));
  }

  lemma {:induction false} CompleteAllKeepsGood(c: Config, s: State, keys: seq<Id>, rest: seq<Id>)
    requires c.Valid() && Distinct(keys + rest)
    requires Good(c, s, Elems(keys + rest))
    requires forall k <- keys + rest :: k in s.active && 0 < s.active[k]
    ensures var t := CompleteAll(c, s, keys);
            && Good(c, t, Elems(rest)) && Arrivals(t.trace) == Arrivals(s.trace)
            && (forall k <- rest :: k in t.active && 0 < t.active[k])
    decreases |keys|
  {
    if keys == [] {
      assert keys + rest == rest;
    } else {
      var k, later := Last(keys), [Last(keys)] + rest;
      assert DropLast(keys) + later == keys + rest;
      CompleteAllKeepsGood(c, s, DropLast(keys), later);
      assert k !in rest by {
        assert forall i :: 0 <= i < |rest| ==> (keys + rest)[|keys| + i] == rest[i];
        assert (keys + rest)[|keys| - 1] == k;
      }
      assert Elems(later) - {k} == Elems(rest);
      CompleteOneKeepsGood(c, CompleteAll(c, s, DropLast(keys)), k, Elems(later));
    }
  }

  lemma TickKeepsGood(c: Config, s: State, now: real)
    requires c.Valid() && Good(c, s, {})
    ensures Good(c, Tick(c, s, now), {}) && Arrivals(Tick(c, s, now).trace) == Arrivals(s.trace)
  {
    var t := StartTick(c, s, now);
    StartTickKeepsGood(c, s, now);
    if t.order != [] {
      SendFrameKeepsGood(c, t);
      CompleteTickKeepsGood(c, SendFrame(c, t, t.order), t.order);
    }
  }

  lemma CompleteTickKeepsGood(c: Config, sent: State, keys: seq<Id>)
    requires c.Valid() && Good(c, sent, Elems(keys)) && Distinct(keys)
    requires forall k <- keys :: k in sent.active && 0 < sent.active[k]
    ensures Good(c, CompleteAll(c, sent, keys), {})
    ensures Arrivals(CompleteAll(c, sent, keys).trace) == Arrivals(sent.trace)
  {
    assert keys + [] == keys;
    CompleteAllKeepsGood(c, sent, keys, []);
    assert Elems([]) == {};
  }

  // ---------------------------------------------------------------- whole runs

  /** The ids of all NEW_REQUEST messages of a run. */
  function NewIds(turns: seq<Turn>): seq<Id> {
    if turns == [] then [] else NewIds(DropLast(turns)) + NewIdsOf(Last(turns).msgs)
  }

  /** Every run with distinct request ids keeps the books: nothing crashes, every frame and
      every completion is as it must be, and each request has been sent 0, 1, 2, ... and
      completed exactly when that is its quota and it is gone. */
  lemma {:induction false} EveryRunIsGood(c: Config, now: real, turns: seq<Turn>)
    requires c.Valid() && Distinct(NewIds(turns))
    ensures var s := Run(c, Start(now), turns);
            Good(c, s, {}) && Arrivals(s.trace) == NewIds(turns)
  {
    if turns == [] {
      assert forall id :: Account(c, Start(now), id, {});
    } else {
      var before, msgs := DropLast(turns), Last(turns).msgs;
      assert NewIds(turns)[..|NewIds(before)|] == NewIds(before);
      EveryRunIsGood(c, now, before);
      var s := Run(c, Start(now), before);
      ReceiveAllKeepsGood(c, s, msgs);
      var t := ReceiveAll(s, msgs);
      if t.tNext <= Last(turns).now {
        TickKeepsGood(c, t, Last(turns).now);
      }
    }
  }

  lemma {:induction false} ArrivalsExtend(a: seq<Event>, b: seq<Event>)
    ensures Arrivals(a) <= Arrivals(a + b)
  {
    if b == [] {
      assert a + b == a;
    } else {
      ArrivalsExtend(a, DropLast(b));
      assert DropLast(a + b) == a + DropLast(b) && Last(a + b) == Last(b);
    }
  }

  lemma DropEvent(c: Config, trace: seq<Event>, e: Event)
    requires c.Valid() && EventsOk(c, trace + [e]) && Distinct(Arrivals(trace + [e]))
    ensures EventsOk(c, trace) && EventOk(c, trace, e) && Distinct(Arrivals(trace))
  {
    var longer := trace + [e];
    forall t | 0 <= t < |trace|
      ensures EventOk(c, trace[..t], trace[t])
    {
      assert longer[..t] == trace[..t] && longer[t] == trace[t];
      assert EventOk(c, longer[..t], longer[t]);
    }
    assert longer[..|trace|] == trace && longer[|trace|] == e;
    assert EventOk(c, longer[..|trace|], longer[|trace|]);
    ArrivalsExtend(trace, [e]);
    assert forall i :: 0 <= i < |Arrivals(trace)| ==> Arrivals(trace)[i] == Arrivals(longer)[i];
  }

  lemma GoneStep(c: Config, trace: seq<Event>, e: Event, id: Id)
    requires c.Valid() && EventOk(c, trace, e) && Distinct(Arrivals(trace + [e]))
    requires id in Arrivals(trace) && id !in Live(trace)
    ensures id !in Live(trace + [e]) && id in Arrivals(trace + [e])
    ensures Loops(trace + [e], id) == Loops(trace, id) && Completions(trace + [e], id) == Completions(trace, id)
  {
    Append(trace, e);
    if e.Frame? {
      NotListed(e.rows, id);
    } else if e.Received? && e.msg.NewRequest? {
      NewIsNew(trace, e.msg.id, id);
    }
  }

  /** A request that is gone stays silent: once completed or aborted it is in no later frame
      and gets no completion, in any run with distinct ids. */
  lemma {:induction false} GoneIsSilent(c: Config, a: seq<Event>, b: seq<Event>, id: Id)
    requires c.Valid() && EventsOk(c, a + b) && Distinct(Arrivals(a + b))
    requires id in Arrivals(a) && id !in Live(a)
    ensures id !in Live(a + b) && id in Arrivals(a + b)
    ensures Loops(a + b, id) == Loops(a, id) && Completions(a + b, id) == Completions(a, id)
  {
    if b == [] {
      assert a + b == a;
    } else {
      var rest, e := a + DropLast(b), Last(b);
      assert a + b == rest + [e];
      DropEvent(c, rest, e);
      GoneIsSilent(c, a, DropLast(b), id);
      GoneStep(c, rest, e, id);
    }
  }

  lemma {:induction false} NotListed(rows: seq<Row>, id: Id)
    requires id !in Ids(rows)
    ensures LoopsOf(rows, id) == []
  {
    if rows != [] {
      assert Ids(rows) == Ids(DropLast(rows)) + [Last(rows).id];
      NotListed(DropLast(rows), id);
    }
  }

  lemma NewIsNew(trace: seq<Event>, latest: Id, id: Id)
    requires Distinct(Arrivals(trace + [Received(NewRequest(latest))])) && id in Arrivals(trace)
    ensures id != latest
  {
    Append(trace, Received(NewRequest(latest)));
    var q := Arrivals(trace + [Received(NewRequest(latest))]);
    var p := Arrivals(trace);
    assert q == p + [latest];
    var i :| 0 <= i < |p| && p[i] == id;
    assert q[i] == id && q[|q| - 1] == latest;
  }

  /** The per-request guarantee, for every run with distinct ids: indices with no gap or
      repeat, at most the quota of them, and one completion exactly at the quota. */
  lemma RequestContract(c: Config, now: real, turns: seq<Turn>, id: Id)
    requires c.Valid() && Distinct(NewIds(turns))
    ensures var trace := Run(c, Start(now), turns).trace;
            && CountsUp(Loops(trace, id)) && |Loops(trace, id)| <= c.Quota()
            && Completions(trace, id) == if id in NewIds(turns) && id !in Live(trace)
                                            && |Loops(trace, id)| == c.Quota() then 1 else 0
  {
    EveryRunIsGood(c, now, turns);
    assert Account(c, Run(c, Start(now), turns), id, {});
  }

  lemma EventMeans(c: Config, before: seq<Event>, e: Event)
    requires c.Valid() && EventOk(c, before, e)
    ensures e.Frame? ==> Ids(e.rows) == Live(before)
    ensures e.Completed? ==> (e.chunks == |Loops(before, e.id)| <==> c.tokens >= 1)
  {
  }

  /** The token in a row: from the vocabulary, by loop index and place in the frame. */
  lemma TokenIs(c: Config, j: nat, i: nat)
    requires c.Valid()
    ensures c.TokenAt(j, i) == c.vocab[(j + 37 * i) % |c.vocab|]
  {
  }

  lemma RowIs(c: Config, trace: seq<Event>, t: nat, i: nat)
    requires c.Valid() && EventsOk(c, trace) && t < |trace| && trace[t].Frame? && i < |trace[t].rows|
    ensures var (before, row) := (trace[..t], trace[t].rows[i]);
            && i < |Live(before)| && row.id == Live(before)[i]
            && row.loop == |Loops(before, row.id)| && row.value == c.vocab[(row.loop + 37 * i) % |c.vocab|]
  {
    assert EventOk(c, trace[..t], trace[t]);
    assert Ids(trace[t].rows)[i] == trace[t].rows[i].id;
    TokenIs(c, trace[t].rows[i].loop, i);
  }

  lemma EventsAreOk(c: Config, now: real, turns: seq<Turn>)
    requires c.Valid() && Distinct(NewIds(turns))
    ensures EventsOk(c, Run(c, Start(now), turns).trace)
  {
    EveryRunIsGood(c, now, turns);
  }

  /** Every row of every frame of such a run: a live request, its next index, and the token. */
  lemma RowContract(c: Config, now: real, turns: seq<Turn>, t: nat, i: nat)
    requires c.Valid() && Distinct(NewIds(turns))
    requires t < |Run(c, Start(now), turns).trace| && Run(c, Start(now), turns).trace[t].Frame?
    requires i < |Run(c, Start(now), turns).trace[t].rows|
    ensures var (before, row) := (Run(c, Start(now), turns).trace[..t], Run(c, Start(now), turns).trace[t].rows[i]);
            && i < |Live(before)| && row.id == Live(before)[i]
            && row.loop == |Loops(before, row.id)| && row.value == c.vocab[(row.loop + 37 * i) % |c.vocab|]
  {
    EventsAreOk(c, now, turns);
    RowIs(c, Run(c, Start(now), turns).trace, t, i);
  }

  lemma LiveIsDistinctWithin(before: seq<Event>, after: seq<Event>)
    requires Distinct(Arrivals(before + after))
    ensures Distinct(Live(before))
  {
    ArrivalsExtend(before, after);
    assert forall i :: 0 <= i < |Arrivals(before)| ==> Arrivals(before)[i] == Arrivals(before + after)[i];
    LiveIsDistinct(before);
  }

  lemma TraceContract(c: Config, trace: seq<Event>, t: nat)
    requires c.Valid() && Distinct(Arrivals(trace)) && EventsOk(c, trace) && t < |trace|
    ensures trace[t].Frame? ==> Ids(trace[t].rows) == Live(trace[..t]) && Distinct(Live(trace[..t]))
    ensures trace[t].Completed? ==> (trace[t].chunks == |Loops(trace[..t], trace[t].id)| <==> c.tokens >= 1)
    ensures forall id :: id in Arrivals(trace[..t]) && id !in Live(trace[..t]) ==>
                Loops(trace, id) == Loops(trace[..t], id) && Completions(trace, id) == Completions(trace[..t], id)
  {
    var before, after := trace[..t], trace[t..];
    assert before + after == trace;
    LiveIsDistinctWithin(before, after);
    EventMeans(c, before, trace[t]);
    forall id | id in Arrivals(before) && id !in Live(before)
      ensures Loops(trace, id) == Loops(before, id) && Completions(trace, id) == Completions(before, id)
    {
      GoneIsSilent(c, before, after, id);
    }
  }

  /** The guarantee at any point of such a run: a frame lists exactly the live requests in
      arrival order, none twice; a completion reports what was sent iff at least one token was
      asked for; and a request that is gone by then is silent from then on. */
  lemma EventContract(c: Config, now: real, turns: seq<Turn>, t: nat)
    requires c.Valid() && Distinct(NewIds(turns))
    requires t < |Run(c, Start(now), turns).trace|
    ensures var trace := Run(c, Start(now), turns).trace;
            && !Run(c, Start(now), turns).crashed
            && (trace[t].Frame? ==> Ids(trace[t].rows) == Live(trace[..t]) && Distinct(Live(trace[..t])))
            && (trace[t].Completed? ==>
                  (trace[t].chunks == |Loops(trace[..t], trace[t].id)| <==> c.tokens >= 1))
            && (forall id :: id in Arrivals(trace[..t]) && id !in Live(trace[..t]) ==>
                  Loops(trace, id) == Loops(trace[..t], id)
                  && Completions(trace, id) == Completions(trace[..t], id))
  {
    EveryRunIsGood(c, now, turns);
    TraceContract(c, Run(c, Start(now), turns).trace, t);
  }

  lemma {:induction false} LiveIsDistinct(trace: seq<Event>)
    requires Distinct(Arrivals(trace))
    ensures Distinct(Live(trace)) && forall id <- Live(trace) :: id in Arrivals(trace)
  {
    if trace != [] {
      var rest := DropLast(trace);
      assert trace == rest + [Last(trace)];
      ArrivalsExtend(rest, [Last(trace)]);
      LiveIsDistinct(rest);
      match Last(trace)
      case Received(NewRequest(id)) =>
        if id in Live(rest) {
          NewIsNew(rest, id, id);
        }
      case Received(AbortRequest(id)) => WithoutIsDistinct(Live(rest), id);
      case Completed(id, _) => WithoutIsDistinct(Live(rest), id);
      case _ =>
    }
  }

  lemma {:induction false} WithoutIsDistinct(s: seq<Id>, x: Id)
    requires Distinct(s)
    ensures Distinct(Without(s, x))
  {
    if s != [] {
      WithoutIsDistinct(DropLast(s), x);
      assert Last(s) !in DropLast(s);
    }
  }

  // ---------------------------------------------------------------- progress

  /** The frames sent while request `id` was live. */
  function FramesWhileLive(trace: seq<Event>, id: Id): nat {
    if trace == [] then 0
    else
      FramesWhileLive(DropLast(trace), id)
      + if Last(trace).Frame? && id in Live(DropLast(trace)) then 1 else 0
  }

  /** The aborts that hit request `id` live: none or one. */
  function Aborts(trace: seq<Event>, id: Id): nat {
    if trace == [] then 0
    else
      Aborts(DropLast(trace), id)
      + if Last(trace) == Received(AbortRequest(id)) && id in Live(DropLast(trace)) then 1 else 0
  }

  lemma FrameLoops(c: Config, before: seq<Event>, rows: seq<Row>, id: Id)
    requires c.Valid() && FrameOk(c, before, rows) && Distinct(Live(before))
    ensures |LoopsOf(rows, id)| == if id in Live(before) then 1 else 0
  {
    LoopsOfDistinct(rows, id);
    if id in Live(before) {
      var i :| 0 <= i < |rows| && Ids(rows)[i] == id;
    }
  }

  /** Each frame sent while the request is live carries it on by one token. */
  lemma {:induction false} EveryFrameCounts(c: Config, trace: seq<Event>, id: Id)
    requires c.Valid() && EventsOk(c, trace) && Distinct(Arrivals(trace))
    ensures |Loops(trace, id)| == FramesWhileLive(trace, id)
  {
    if trace != [] {
      var rest, e := DropLast(trace), Last(trace);
      assert trace == rest + [e];
      DropEvent(c, rest, e);
      EveryFrameCounts(c, rest, id);
      if e.Frame? {
        LiveIsDistinct(rest);
        FrameLoops(c, rest, e.rows, id);
      }
    }
  }

  lemma ArrivalsAt(trace: seq<Event>, e: Event, id: Id)
    requires Distinct(Arrivals(trace + [e]))
    ensures id in Arrivals(trace + [e]) <==> id in Arrivals(trace) || e == Received(NewRequest(id))
    ensures e == Received(NewRequest(id)) ==> id !in Arrivals(trace)
  {
    Append(trace, e);
    if e.Received? && e.msg.NewRequest? && id in Arrivals(trace) {
      NewIsNew(trace, e.msg.id, id);
    }
  }

  /** Nothing gets lost: a request that has arrived is live, or was completed once, or was
      aborted once. */
  lemma {:induction false} EveryRequestEndsOnce(c: Config, trace: seq<Event>, id: Id)
    requires c.Valid() && EventsOk(c, trace) && Distinct(Arrivals(trace))
    ensures (if id in Live(trace) then 1 else 0) + Completions(trace, id) + Aborts(trace, id)
         == if id in Arrivals(trace) then 1 else 0
  {
    if trace != [] {
      var rest, e := DropLast(trace), Last(trace);
      assert trace == rest + [e];
      DropEvent(c, rest, e);
      EveryRequestEndsOnce(c, rest, id);
      ArrivalsAt(rest, e, id);
    }
  }

  /** Progress, for every run with distinct ids: a request is completed exactly when the frame
      that is its quota-th since it arrived has been sent; until then, unless aborted, it is live. */
  lemma RequestProgress(c: Config, now: real, turns: seq<Turn>, id: Id)
    requires c.Valid() && Distinct(NewIds(turns))
    ensures var trace := Run(c, Start(now), turns).trace;
            var frames := FramesWhileLive(trace, id);
            && frames <= c.Quota()
            && Completions(trace, id) == (if frames == c.Quota() then 1 else 0)
            && (id in NewIds(turns) ==> (id in Live(trace) <==> frames < c.Quota() && Aborts(trace, id) == 0))
            && (id in NewIds(turns) ==> Aborts(trace, id) <= 1)
  {
    var s := Run(c, Start(now), turns);
    EveryRunIsGood(c, now, turns);
    assert Account(c, s, id, {});
    EveryFrameCounts(c, s.trace, id);
    EveryRequestEndsOnce(c, s.trace, id);
  }
}
